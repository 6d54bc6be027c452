/**
 One record of the streaming checker of Modules/lvs_cpu_verified_progress.py: what it takes to accept a record,
 and what the record does to the accounts that the loop carries.
 */
module ProgressRecord {
  import opened Options
  import opened ProgressLog
  import opened ProgressSpec

  datatype Reason =
    | ContractUnrecognized | InvalidInterval | PersistenceFailed | BadTargets | BadVectorGeometry
    | TruncatedRecord | Unavailable | ArithmeticFailure | MissingStartup | MissingSequence | SnapshotGap
    | StalePublication(cpu: int) | UnobservedInterval(cpu: int) | InvalidRecord
    | MissingInitial | MissingFinal | SnapshotCountDiffers | WorkerNotVerified | BelowDuration
    | BadLanes | InsufficientCoverage(cpu: int) | StalledWork(cpu: int) | TelemetryInsufficient

  /** Appends a reason once. */
  function Issue(reasons: seq<Reason>, reason: Reason): (r: seq<Reason>)
    ensures r != [] && reason in r && reasons <= r && |r| <= |reasons| + 1
    ensures reason in reasons ==> r == reasons
  {
    if reason in reasons then reasons else reasons + [reason]
  }

  function Sum(rates: seq<real>): real
  {
    if rates == [] then 0.0 else Sum(rates[..|rates| - 1]) + rates[|rates| - 1]
  }

  datatype RateSummary = RateSummary(count: nat, minimum: Option<real>, maximum: Option<real>, sum: real)

  const NO_RATES := RateSummary(0, None, None, 0.0)

  function AddRate(s: RateSummary, rate: real): RateSummary
  {
    RateSummary(s.count + 1, Least(s.minimum, rate), Greatest(s.maximum, rate), s.sum + rate)
  }

  ghost function Summarize(rates: seq<real>): RateSummary
  {
    if rates == [] then NO_RATES else AddRate(Summarize(rates[..|rates| - 1]), rates[|rates| - 1])
  }

  ghost predicate Summarized(s: RateSummary) { exists rates: seq<real> :: s == Summarize(rates) }

  lemma {:induction false} AddRateSummarizes(s: RateSummary, rate: real)
    requires Summarized(s)
    ensures Summarized(AddRate(s, rate))
  {
    var rates: seq<real> :| s == Summarize(rates);
    var longer := rates + [rate];
    assert longer[..|longer| - 1] == rates;
    assert AddRate(s, rate) == Summarize(longer);
  }

  lemma {:induction false} SummarizeIsBracketed(rates: seq<real>)
    ensures var s := Summarize(rates);
            && s.count == |rates|
            && (rates != [] ==> s.minimum.Some? && s.maximum.Some?
                                && Within(s.minimum.value, s.maximum.value, |rates| as real, s.sum))
  {
    if rates != [] {
      var front, rate, n := Summarize(rates[..|rates| - 1]), rates[|rates| - 1], (|rates| - 1) as real;
      SummarizeIsBracketed(rates[..|rates| - 1]);
      var low, high := Summarize(rates).minimum.value, Summarize(rates).maximum.value;
      assert |rates| as real == n + 1.0;
      if front.count > 0 {
        WithinWidens(front.minimum.value, front.maximum.value, n, front.sum, low, high);
        WithinAdds(low, high, n, front.sum, 1.0, rate);
      }
    }
  }

  /** The summary of some rates: their number, sum, least and greatest. */
  lemma {:induction false} SummaryMeans(rates: seq<real>)
    ensures var s := Summarize(rates);
      && s.count == |rates| && s.sum == Sum(rates) && (rates == [] ==> s.minimum == s.maximum == None)
      && (rates != [] ==> s.minimum.Some? && s.minimum.value in rates && s.maximum.Some? && s.maximum.value in rates)
      && forall k :: 0 <= k < |rates| ==> s.minimum.value <= rates[k] <= s.maximum.value
  {
    if rates != [] {
      var front, last := rates[..|rates| - 1], rates[|rates| - 1];
      SummaryMeans(front);
      assert rates == front + [last];
    }
  }

  lemma {:induction false} SumOfOne(rate: real)
    ensures Sum([rate]) == rate
  {
    assert [rate][..0] == [];
  }

  /** The sum is additive. */
  lemma {:induction false} SumOfBoth(a: seq<real>, b: seq<real>)
    ensures Sum(a + b) == Sum(a) + Sum(b)
  {
    if b == [] {
      assert a + b == a;
    } else {
      var front := b[..|b| - 1];
      SumOfBoth(a, front);
      assert (a + b)[..|a + b| - 1] == a + front;
    }
  }

  /** The mean of the summed interval rates lies between the least and the greatest of them. */
  lemma {:induction false} MeanIsBetweenExtremes(s: RateSummary)
    requires Summarized(s) && s.count > 0
    ensures s.minimum.Some? && s.maximum.Some?
    ensures s.minimum.value <= Quotient(s.sum, s.count as real) <= s.maximum.value
  {
    var rates: seq<real> :| s == Summarize(rates);
    SummarizeIsBracketed(rates);
    QuotientWithin(s.sum, s.count as real, s.minimum.value, s.maximum.value);
  }

  /** What the loop remembers of earlier records: the accepted record just before, and the last accepted state. */
  datatype Memory = Memory(previous: Option<Snapshot>, lastState: Option<State>)

  const NOTHING := Memory(None, None)

  function Remembering(s: Snapshot): Memory { Memory(Some(s), Some(s.state)) }

  /** What the loop over the records carries. */
  datatype Tracker = Tracker(
    previous: Option<Snapshot>, lastState: Option<State>, initialSeen: bool, finalComplete: bool,
    snapshots: nat, stats: map<int, Stats>, rates: RateSummary, reasons: seq<Reason>)
  {
    function Remembers(): Memory { Memory(previous, lastState) }
  }

  ghost predicate Consistent(w: Worker, tr: Tracker)
  {
    && tr.stats.Keys == Targets(w)
    && (tr.previous.Some? ==> tr.previous.value.mapping.Keys == tr.stats.Keys)
    && (forall cpu :: cpu in tr.stats ==> Bracketed(tr.stats[cpu]))
    && Summarized(tr.rates)
  }

  // ----- one record

  /** The checks of one thread publication; false stands for the raised ValueError. */
  method CheckThread(w: Worker, t: ThreadRow, index: nat, timestamp: real, found: map<int, Sample>,
                     reasons: seq<Reason>)
    returns (ok: bool, reasons': seq<Reason>)
    ensures ok <==> GoodThread(Cpus(w), t, index, timestamp) && Cpu(t) !in found
    ensures ok ==> reasons' == if t.errors != Whole(0) then Issue(reasons, ArithmeticFailure) else reasons
  {
    ok, reasons' := false, reasons;
    if AsInteger(t.index) != Some(index) || AsInteger(t.cpu).None? || Cpu(t) !in Cpus(w) || Cpu(t) in found {
      return;
    }
    if Counter(t.blocks).None? || Counter(t.errors).None?
       || !t.initial.Flag? || !t.periodic.Flag? || !t.final.Flag? || !t.affinity.Flag? || Number(t.published).None? {
      return;
    }
    var sample := SampleOf(t);
    if sample.published < 0.0 || sample.published > timestamp + 0.001 {
      return;
    }
    if sample.blocks > 0 && (!IsSet(t.initial) || !IsSet(t.affinity) || AsInteger(t.observedCpu) != Some(Cpu(t))) {
      return;
    }
    if sample.errors > 0 {
      reasons' := Issue(reasons', ArithmeticFailure);
    }
    if sample.blocks > 0 && !t.geometryMatches {
      return;
    }
    ok := true;
  }

  predicate NoErrors(threads: seq<ThreadRow>, n: nat)
    requires n <= |threads|
  {
    n == 0 || (NoErrors(threads, n - 1) && SampleOf(threads[n - 1]).errors == 0)
  }

  lemma {:induction false} NoErrorsMeaning(threads: seq<ThreadRow>, n: nat)
    requires n <= |threads|
    ensures NoErrors(threads, n) <==> forall k :: 0 <= k < n ==> SampleOf(threads[k]).errors == 0
  {
    if n > 0 { NoErrorsMeaning(threads, n - 1); }
  }

  /** The first n threads pass the loop. */
  predicate GoodSoFar(cpus: seq<int>, threads: seq<ThreadRow>, n: nat, timestamp: real)
    requires n <= |threads|
  {
    n == 0 || (&& GoodSoFar(cpus, threads, n - 1, timestamp) && GoodThread(cpus, threads[n - 1], n - 1, timestamp)
               && Cpu(threads[n - 1]) !in MappingOf(threads, n - 1))
  }

  lemma {:induction false} GoodSoFarMeaning(cpus: seq<int>, threads: seq<ThreadRow>, n: nat, timestamp: real)
    requires n <= |threads|
    ensures GoodSoFar(cpus, threads, n, timestamp) <==>
            && (forall k :: 0 <= k < n ==> GoodThread(cpus, threads[k], k, timestamp))
            && DistinctCpus(threads, n)
  {
    if n > 0 {
      GoodSoFarMeaning(cpus, threads, n - 1, timestamp);
      if DistinctCpus(threads, n - 1) {
        forall k | 0 <= k < n - 1 ensures Cpu(threads[k]) in MappingOf(threads, n - 1) {
          MappingKeepsThread(threads, n - 1, k);
        }
        if Cpu(threads[n - 1]) in MappingOf(threads, n - 1) {
          var k := KeyHasThread(threads, n - 1, Cpu(threads[n - 1]));
        }
      }
    }
  }

  lemma {:induction false} BadStaysBad(cpus: seq<int>, threads: seq<ThreadRow>, n: nat, m: nat, timestamp: real)
    requires n <= m <= |threads| && !GoodSoFar(cpus, threads, n, timestamp)
    ensures !GoodSoFar(cpus, threads, m, timestamp)
  {
    if n < m { BadStaysBad(cpus, threads, n, m - 1, timestamp); }
  }

  /** The CPUs of the first n threads in the order of the thread list. */
  function Order(threads: seq<ThreadRow>, n: nat): (order: seq<int>)
    requires n <= |threads|
    ensures |order| == n
    ensures forall k :: 0 <= k < n ==> order[k] == Cpu(threads[k])
  {
    if n == 0 then [] else Order(threads, n - 1) + [Cpu(threads[n - 1])]
  }

  /** Every targeted CPU once, in the order of the row's thread list. */
  ghost predicate Enumerates(order: seq<int>, keys: set<int>)
  {
    && (forall k :: 0 <= k < |order| ==> order[k] in keys)
    && (forall cpu :: cpu in keys ==> cpu in order)
    && (forall j, k :: 0 <= j < k < |order| ==> order[j] != order[k])
  }

  lemma {:induction false} OrderEnumeratesTargets(w: Worker, threads: seq<ThreadRow>, timestamp: real)
    requires GoodThreads(Cpus(w), threads, timestamp) && |threads| == |w.targets|
    ensures Enumerates(Order(threads, |threads|), Targets(w))
  {
    var order := Order(threads, |threads|);
    MappingCoversTargets(w, threads, timestamp);
    forall cpu | cpu in Targets(w) ensures cpu in order {
      var k := KeyHasThread(threads, |threads|, cpu);
      assert order[k] == cpu;
    }
    forall k | 0 <= k < |order| ensures order[k] in Targets(w) {
      assert GoodThread(Cpus(w), threads[k], k, timestamp);
    }
  }

  lemma {:induction false} ErrorsByCpu(w: Worker, threads: seq<ThreadRow>, timestamp: real)
    requires GoodThreads(Cpus(w), threads, timestamp) && |threads| == |w.targets|
    ensures MappingOf(threads, |threads|).Keys == Targets(w)
    ensures NoErrors(threads, |threads|) <==>
            forall cpu :: cpu in Targets(w) ==> MappingOf(threads, |threads|)[cpu].errors == 0
  {
    MappingCoversTargets(w, threads, timestamp);
    NoErrorsMeaning(threads, |threads|);
    if NoErrors(threads, |threads|) {
      forall cpu | cpu in Targets(w) ensures MappingOf(threads, |threads|)[cpu].errors == 0 {
        var k := KeyHasThread(threads, |threads|, cpu);
        MappingKeepsThread(threads, |threads|, k);
      }
    } else {
      var k :| 0 <= k < |threads| && SampleOf(threads[k]).errors != 0;
      MappingKeepsThread(threads, |threads|, k);
    }
  }

  /** What it means that every thread passed the loop. */
  lemma {:induction false} PassedThreads(w: Worker, threads: seq<ThreadRow>, timestamp: real)
    requires |threads| == |w.targets|
    ensures GoodSoFar(Cpus(w), threads, |threads|, timestamp) <==> GoodThreads(Cpus(w), threads, timestamp)
    ensures GoodThreads(Cpus(w), threads, timestamp) ==>
              && MappingOf(threads, |threads|).Keys == Targets(w) && Enumerates(Order(threads, |threads|), Targets(w))
              && (NoErrors(threads, |threads|) <==>
                    forall cpu :: cpu in Targets(w) ==> MappingOf(threads, |threads|)[cpu].errors == 0)
  {
    GoodSoFarMeaning(Cpus(w), threads, |threads|, timestamp);
    if GoodThreads(Cpus(w), threads, timestamp) {
      OrderEnumeratesTargets(w, threads, timestamp);
      ErrorsByCpu(w, threads, timestamp);
    }
  }

  /** Walks the thread publications of a row; None stands for the raised ValueError. */
  method CheckThreads(w: Worker, threads: seq<ThreadRow>, timestamp: real, reasons: seq<Reason>)
    returns (mapping: Option<map<int, Sample>>, order: seq<int>, reasons': seq<Reason>)
    requires |threads| == |w.targets|
    ensures mapping.Some? <==> GoodThreads(Cpus(w), threads, timestamp)
    ensures mapping.Some? ==>
              && mapping.value == MappingOf(threads, |threads|)
              && mapping.value.Keys == Targets(w) && Enumerates(order, mapping.value.Keys)
              && order == Order(threads, |threads|)
              && (reasons' == [] <==>
                    reasons == [] && forall cpu :: cpu in Targets(w) ==> mapping.value[cpu].errors == 0)
  {
    var found: map<int, Sample> := map[];
    order, reasons' := [], reasons;
    for k := 0 to |threads|
      invariant GoodSoFar(Cpus(w), threads, k, timestamp)
      invariant found == MappingOf(threads, k)
      invariant order == Order(threads, k)
      invariant reasons' == [] <==> reasons == [] && NoErrors(threads, k)
    {
      var ok;
      ok, reasons' := CheckThread(w, threads[k], k, timestamp, found, reasons');
      if !ok {
        BadStaysBad(Cpus(w), threads, k + 1, |threads|, timestamp);
        PassedThreads(w, threads, timestamp);
        return None, order, reasons';
      }
      found := found[Cpu(threads[k]) := SampleOf(threads[k])];
      order := order + [Cpu(threads[k])];
    }
    PassedThreads(w, threads, timestamp);
    return Some(found), order, reasons';
  }

  /** Adds one interval to the account of a CPU. */
  method RecordInterval(s: Stats, left: Sample, right: Sample) returns (s': Stats, rate: real)
    requires left.published < right.published
    ensures s' == AddInterval(s, left, right) && rate == Rate(left, right)
  {
    var elapsed: real, count: int, prior: int := right.published - left.published, right.blocks, left.blocks;
    rate := Divide((count - prior) as real, elapsed);
    s' := Stats(s.intervals + 1, s.blocks + count - prior, s.seconds + elapsed,
                if count == prior then s.stalls + 1 else s.stalls, Least(s.minRate, rate), Greatest(s.maxRate, rate));
  }

  /** One CPU between two snapshots; `ok` is false when its counter or publication time regressed. */
  method AccountInterval(win: Window, prev: Snapshot, cur: Snapshot, cpu: int, account: Stats, reasons: seq<Reason>)
    returns (ok: bool, account': Stats, reasons': seq<Reason>, rate: Option<real>)
    requires cpu in prev.mapping && cpu in cur.mapping
    requires reasons == [] ==> cur.timestamp - prev.timestamp <= MAX_GAP && cur.sequence == prev.sequence + 1
    ensures ok <==> Coherent(At(prev, cpu), At(cur, cpu))
    ensures ok ==> (reasons' == [] <==> reasons == [] && Observed(win, cur.timestamp, At(prev, cpu), At(cur, cpu)))
    ensures account' == if ok then Credit(win, account, prev, cur, cpu) else account
    ensures ok ==> rate == if Credited(win, prev, cur, cpu) then Some(Rate(At(prev, cpu), At(cur, cpu))) else None
  {
    ok, account', reasons', rate := true, account, reasons, None;
    var left, right := prev.mapping[cpu], cur.mapping[cpu];
    if right.blocks < left.blocks || right.published < left.published
       || (right.published == left.published && right.blocks != left.blocks) {
      ok := false;
      return;
    }
    if win.start <= cur.timestamp <= win.end && cur.timestamp - right.published > MAX_GAP {
      reasons' := Issue(reasons', StalePublication(cpu));
    }
    if win.start <= left.published < right.published <= win.end {
      if right.published - left.published > MAX_GAP || cur.timestamp - prev.timestamp > MAX_GAP
         || cur.sequence != prev.sequence + 1 {
        reasons' := Issue(reasons', UnobservedInterval(cpu));
      } else {
        var r;
        account', r := RecordInterval(account, left, right);
        rate := Some(r);
      }
    }
  }

  // What the first n CPUs of a row contribute, in the order in which the row lists them.

  ghost predicate CoherentSoFar(order: seq<int>, n: nat, prev: Snapshot, cur: Snapshot)
    requires n <= |order|
  {
    n == 0 || (CoherentSoFar(order, n - 1, prev, cur) && Coherent(At(prev, order[n - 1]), At(cur, order[n - 1])))
  }

  /** How many CPUs the walk gets through before one has regressed. */
  ghost function CoherentCount(order: seq<int>, n: nat, prev: Snapshot, cur: Snapshot): (count: nat)
    requires n <= |order|
    ensures count <= n
  {
    if n == 0 then 0
    else
      var before := CoherentCount(order, n - 1, prev, cur);
      if before == n - 1 && Coherent(At(prev, order[n - 1]), At(cur, order[n - 1])) then n else before
  }

  lemma {:induction false} CoherentCountMeaning(order: seq<int>, n: nat, prev: Snapshot, cur: Snapshot)
    requires n <= |order|
    ensures CoherentCount(order, n, prev, cur) == n <==> CoherentSoFar(order, n, prev, cur)
  {
    if n > 0 { CoherentCountMeaning(order, n - 1, prev, cur); }
  }

  /** The count stays where the first regression is. */
  lemma {:induction false} CoherentCountStays(order: seq<int>, n: nat, m: nat, prev: Snapshot, cur: Snapshot)
    requires n < m <= |order| && CoherentSoFar(order, n, prev, cur)
    requires !Coherent(At(prev, order[n]), At(cur, order[n]))
    ensures CoherentCount(order, m, prev, cur) == n
  {
    CoherentCountMeaning(order, n, prev, cur);
    if n + 1 < m { CoherentCountStays(order, n, m - 1, prev, cur); }
  }

  ghost predicate ObservedSoFar(win: Window, order: seq<int>, n: nat, prev: Snapshot, cur: Snapshot)
    requires n <= |order|
  {
    n == 0 || (ObservedSoFar(win, order, n - 1, prev, cur)
               && Observed(win, cur.timestamp, At(prev, order[n - 1]), At(cur, order[n - 1])))
  }

  ghost function CreditsSoFar(win: Window, order: seq<int>, n: nat, prev: Snapshot, cur: Snapshot, stats: map<int,
                              Stats>): (r: map<int, Stats>)
    requires n <= |order| && forall k :: 0 <= k < |order| ==> order[k] in stats
    ensures r.Keys == stats.Keys
  {
    if n == 0 then stats
    else
      var cpu, before := order[n - 1], CreditsSoFar(win, order, n - 1, prev, cur, stats);
      before[cpu := Credit(win, before[cpu], prev, cur, cpu)]
  }

  /** The rates of the first n CPUs that are credited. */
  ghost function RatesSoFar(win: Window, order: seq<int>, n: nat, prev: Snapshot, cur: Snapshot): seq<real>
    requires n <= |order|
  {
    if n == 0 then []
    else
      var cpu, before := order[n - 1], RatesSoFar(win, order, n - 1, prev, cur);
      if Credited(win, prev, cur, cpu) then before + [Rate(At(prev, cpu), At(cur, cpu))] else before
  }

  /** A row contributes the sum of its rates when every CPU of it is credited, and nothing otherwise. */
  ghost function WithRow(win: Window, s: RateSummary, order: seq<int>, prev: Snapshot, cur: Snapshot): RateSummary
  {
    var rates := RatesSoFar(win, order, |order|, prev, cur);
    if |rates| == |order| then AddRate(s, Sum(rates)) else s
  }

  lemma {:induction false} WithRowSummarizes(win: Window, s: RateSummary, order: seq<int>, prev: Snapshot,
                                             cur: Snapshot)
    requires Summarized(s)
    ensures Summarized(WithRow(win, s, order, prev, cur))
  {
    AddRateSummarizes(s, Sum(RatesSoFar(win, order, |order|, prev, cur)));
  }

  lemma {:induction false} CoherentSoFarMeaning(order: seq<int>, n: nat, prev: Snapshot, cur: Snapshot)
    requires n <= |order|
    ensures CoherentSoFar(order, n, prev, cur) <==>
            forall j :: 0 <= j < n ==> Coherent(At(prev, order[j]), At(cur, order[j]))
  {
    if n > 0 { CoherentSoFarMeaning(order, n - 1, prev, cur); }
  }

  lemma {:induction false} ObservedSoFarMeaning(win: Window, order: seq<int>, n: nat, prev: Snapshot, cur: Snapshot)
    requires n <= |order|
    ensures ObservedSoFar(win, order, n, prev, cur) <==>
            forall j :: 0 <= j < n ==> Observed(win, cur.timestamp, At(prev, order[j]), At(cur, order[j]))
  {
    if n > 0 { ObservedSoFarMeaning(win, order, n - 1, prev, cur); }
  }

  /** Walking the row CPU by CPU treats every targeted CPU once. */
  lemma {:induction false} WalkCredits(win: Window, order: seq<int>, n: nat, prev: Snapshot, cur: Snapshot,
                                       stats: map<int, Stats>, j: nat)
    requires n <= |order| && j < |order| && Enumerates(order, stats.Keys)
    ensures CreditsSoFar(win, order, n, prev, cur, stats)[order[j]] ==
            if j < n then Credit(win, stats[order[j]], prev, cur, order[j]) else stats[order[j]]
  {
    if n > 0 { WalkCredits(win, order, n - 1, prev, cur, stats, j); }
  }

  lemma {:induction false} WholeRowIsAllCpus(win: Window, order: seq<int>, cpus: set<int>, prev: Snapshot,
                                             cur: Snapshot)
    requires Enumerates(order, cpus)
    ensures CoherentSoFar(order, |order|, prev, cur) <==> AllCoherent(cpus, prev, cur)
    ensures ObservedSoFar(win, order, |order|, prev, cur) <==> AllObserved(win, cpus, prev, cur)
  {
    CoherentSoFarMeaning(order, |order|, prev, cur);
    ObservedSoFarMeaning(win, order, |order|, prev, cur);
    forall cpu | cpu in cpus ensures exists j :: 0 <= j < |order| && order[j] == cpu {
      assert cpu in order;
    }
  }

  /** Between contiguous records every counted interval is credited. */
  lemma {:induction false} ContiguousCredit(win: Window, cpus: set<int>, s: Stats, prev: Snapshot, cur: Snapshot,
                                            cpu: int)
    requires Contiguous(win, cpus, prev, cur) && cpu in cpus
    ensures Credit(win, s, prev, cur, cpu) == WithInterval(win, s, prev, cur, cpu)
  {
    assert Observed(win, cur.timestamp, At(prev, cpu), At(cur, cpu));
  }

  lemma {:induction false} CreditsKeepBrackets(win: Window, order: seq<int>, n: nat, prev: Snapshot, cur: Snapshot,
                                               stats: map<int, Stats>)
    requires n <= |order| && forall k :: 0 <= k < |order| ==> order[k] in stats
    requires forall cpu :: cpu in stats ==> Bracketed(stats[cpu])
    ensures forall cpu :: cpu in stats ==> Bracketed(CreditsSoFar(win, order, n, prev, cur, stats)[cpu])
  {
    if n > 0 {
      CreditsKeepBrackets(win, order, n - 1, prev, cur, stats);
      CreditKeepsBracket(win, CreditsSoFar(win, order, n - 1, prev, cur, stats)[order[n - 1]], prev, cur, order[n - 1]);
    }
  }

  /** What one CPU is credited with when a record is compared with the one before it: nothing for the CPUs from
      the first regressed one on. */
  ghost function RowCredit(win: Window, order: seq<int>, prev: Snapshot, cur: Snapshot, cpu: int, s: Stats): Stats
  {
    if cpu in order[..CoherentCount(order, |order|, prev, cur)] then Credit(win, s, prev, cur, cpu) else s
  }

  lemma {:induction false} WalkCreditsThePrefix(win: Window, order: seq<int>, prev: Snapshot, cur: Snapshot,
                                                stats: map<int, Stats>, cpu: int)
    requires Enumerates(order, stats.Keys) && cpu in stats
    ensures CreditsSoFar(win, order, CoherentCount(order, |order|, prev, cur), prev, cur, stats)[cpu]
         == RowCredit(win, order, prev, cur, cpu, stats[cpu])
  {
    var n := CoherentCount(order, |order|, prev, cur);
    assert cpu in order;
    var j :| 0 <= j < |order| && order[j] == cpu;
    WalkCredits(win, order, n, prev, cur, stats, j);
    assert j < n ==> order[..n][j] == cpu;
  }

  /** Adds the intervals between two snapshots; `ok` is false when a counter regressed. The accounts of
      the `credited` CPUs before the regressed one have been updated by then. */
  method AccountIntervals(win: Window, order: seq<int>, prev: Snapshot, cur: Snapshot,
                          stats: map<int, Stats>, reasons: seq<Reason>)
    returns (ok: bool, credited: nat, stats': map<int, Stats>, reasons': seq<Reason>, rates: seq<real>)
    requires prev.mapping.Keys == cur.mapping.Keys == stats.Keys
    requires forall k :: 0 <= k < |order| ==> order[k] in stats.Keys
    requires reasons == [] ==> cur.timestamp - prev.timestamp <= MAX_GAP && cur.sequence == prev.sequence + 1
    ensures credited == CoherentCount(order, |order|, prev, cur)
    ensures !ok ==> && credited < |order| && CoherentSoFar(order, credited, prev, cur)
                    && !Coherent(At(prev, order[credited]), At(cur, order[credited]))
    ensures stats' == CreditsSoFar(win, order, credited, prev, cur, stats)
    ensures rates == RatesSoFar(win, order, credited, prev, cur)
    ensures ok <==> CoherentSoFar(order, |order|, prev, cur)
    ensures ok ==> credited == |order|
    ensures ok ==> (reasons' == [] <==> reasons == [] && ObservedSoFar(win, order, |order|, prev, cur))
  {
    ok, credited, stats', reasons', rates := true, 0, stats, reasons, [];
    while credited < |order|
      invariant credited <= |order| && ok
      invariant stats' == CreditsSoFar(win, order, credited, prev, cur, stats)
      invariant rates == RatesSoFar(win, order, credited, prev, cur)
      invariant CoherentSoFar(order, credited, prev, cur)
      invariant reasons' == [] <==> reasons == [] && ObservedSoFar(win, order, credited, prev, cur)
    {
      var cpu, account, rate := order[credited], EMPTY_STATS, None;
      ok, account, reasons', rate := AccountInterval(win, prev, cur, cpu, stats'[cpu], reasons');
      if !ok {
        CoherentCountStays(order, credited, |order|, prev, cur);
        CoherentCountMeaning(order, |order|, prev, cur);
        return;
      }
      stats', credited := stats'[cpu := account], credited + 1;
      if rate.Some? {
        rates := rates + [rate.value];
      }
    }
    CoherentCountMeaning(order, |order|, prev, cur);
  }

  function Rejected(tr: Tracker): Tracker
  {
    tr.(reasons := Issue(tr.reasons, InvalidRecord), previous := None)
  }

  /** The row passes the checks up to its state, though it may follow a terminal record. */
  ghost predicate WellFormed(w: Worker, previous: Option<Snapshot>, row: Row)
  {
    && GoodHeader(w, row)
    && (previous.Some? ==> row.pid.i == previous.value.pid)
    && GoodThreads(Cpus(w), row.threads.value, Number(row.monotonic).value)
    && Counter(row.aggregate) == Some(TotalBlocks(row.threads.value))
    && row.state.Some?
    && (row.state.value.Initial? ==> AllInitial(row.threads.value))
  }

  /** The row can be read, though it may still regress or be an incomplete terminal record. */
  ghost predicate Readable(w: Worker, m: Memory, row: Row)
  {
    WellFormed(w, m.previous, row) && (m.lastState.Some? ==> !Terminal(m.lastState.value))
  }

  /** The record moves on in time and sequence. */
  predicate MovesOn(prev: Snapshot, cur: Snapshot)
  {
    prev.timestamp < cur.timestamp && prev.sequence < cur.sequence
  }

  /** The record is accepted, with or without complaints: nothing raises. */
  ghost predicate Accepted(w: Worker, m: Memory, line: Option<Row>)
  {
    && line.Some? && Readable(w, m, line.value)
    && var cur := SnapshotOf(line.value);
    && GoesOn(Targets(w), m, cur)
    && (cur.state.FinalComplete? ==> GoodTerminal(w, line.value.threads.value))
  }

  /** The CPUs of the record are compared with those of the accepted record just before it. */
  ghost predicate Compared(w: Worker, m: Memory, line: Option<Row>)
  {
    line.Some? && m.previous.Some? && Readable(w, m, line.value) && MovesOn(m.previous.value, SnapshotOf(line.value))
  }

  // What one record does to the memory, an account and the rates, whatever came before it.

  ghost function NextMemory(w: Worker, m: Memory, line: Option<Row>): Memory
  {
    if Accepted(w, m, line) then Memory(Some(SnapshotOf(line.value)), Some(line.value.state.value))
    else Memory(None, m.lastState)
  }

  ghost function NextAccount(w: Worker, win: Window, m: Memory, line: Option<Row>, cpu: int, s: Stats): Stats
  {
    if Compared(w, m, line)
    then RowCredit(win, Order(line.value.threads.value, |line.value.threads.value|), m.previous.value,
                   SnapshotOf(line.value), cpu, s)
    else s
  }

  ghost function NextRates(w: Worker, win: Window, m: Memory, line: Option<Row>, rates: RateSummary): RateSummary
  {
    if Compared(w, m, line) && AllCoherent(Targets(w), m.previous.value, SnapshotOf(line.value))
    then WithRow(win, rates, Order(line.value.threads.value, |line.value.threads.value|), m.previous.value,
                 SnapshotOf(line.value))
    else rates
  }

  /** The record gets as far as a complete initial verification, even if it is rejected after that. */
  ghost predicate SeesInitial(w: Worker, m: Memory, line: Option<Row>)
  {
    && line.Some? && line.value.state == Some(Initial) && WellFormed(w, m.previous, line.value)
  }

  ghost predicate SeesFinal(w: Worker, m: Memory, line: Option<Row>)
  {
    Accepted(w, m, line) && line.value.state == Some(FinalComplete)
  }

  /** The record is accepted without a complaint; `first` says that none has been accepted so far. */
  ghost predicate Admitted(w: Worker, win: Window, m: Memory, first: bool, line: Option<Row>)
  {
    && Accepted(w, m, line)
    && var cur := SnapshotOf(line.value);
    && Errorless(Targets(w), cur)
    && (first ==> cur.state.Startup? && cur.sequence == 0)
    && (m.previous.Some? ==> Contiguous(win, Targets(w), m.previous.value, cur))
  }

  /** What one record does to the tracker, complaints aside. */
  ghost predicate Steps(w: Worker, win: Window, tr: Tracker, line: Option<Row>, next: Tracker)
  {
    var m := tr.Remembers();
    && next.Remembers() == NextMemory(w, m, line)
    && next.snapshots == tr.snapshots + (if Accepted(w, m, line) then 1 else 0)
    && next.initialSeen == (tr.initialSeen || SeesInitial(w, m, line))
    && next.finalComplete == (tr.finalComplete || SeesFinal(w, m, line))
    && next.rates == NextRates(w, win, m, line, tr.rates)
    && next.stats.Keys == tr.stats.Keys
    && forall cpu :: cpu in tr.stats ==> next.stats[cpu] == NextAccount(w, win, m, line, cpu, tr.stats[cpu])
  }

  /** The checks before the thread list is looked at. */
  method CheckHeader(w: Worker, row: Row) returns (ok: bool)
    ensures ok == GoodHeader(w, row)
  {
    ok := false;
    if !row.contractMatches || Counter(row.sequence).None? {
      return;
    }
    if !row.pid.Whole? || row.pid.i <= 0 {
      return;
    }
    if Number(row.monotonic).None? || Number(row.realtime).None? || Number(row.uncertainty).None? {
      return;
    }
    if Number(row.uncertainty).value < 0.0 {
      return;
    }
    if !w.processPid.Null? && AsInteger(w.processPid) != Some(row.pid.i) {
      return;
    }
    ok := row.threads.Some? && |row.threads.value| == |w.targets|;
  }

  method SumBlocks(threads: seq<ThreadRow>) returns (total: nat)
    ensures total == TotalBlocks(threads)
  {
    total := 0;
    for k := 0 to |threads|
      invariant total == TotalBlocks(threads[..k])
    {
      assert threads[..k + 1][..k] == threads[..k];
      total := total + SampleOf(threads[k]).blocks;
    }
    assert threads[..|threads|] == threads;
  }

  /** The checks of a final record; the counters have been read before. */
  method CheckTerminal(w: Worker, threads: seq<ThreadRow>) returns (ok: bool)
    requires forall k :: 0 <= k < |threads| ==> Counter(threads[k].blocks).Some? && Counter(threads[k].errors).Some?
    ensures ok == GoodTerminal(w, threads)
  {
    if |w.details| != |threads| {
      return false;
    }
    for k := 0 to |threads|
      invariant forall j :: 0 <= j < k ==>
                  && threads[j].initial == threads[j].periodic == threads[j].final == Flag(true)
                  && threads[j].errors == Whole(0) && AsInteger(w.details[j]) == Some(threads[j].blocks.i)
    {
      var sample := SampleOf(threads[k]);
      if !sample.complete || sample.errors > 0 || AsInteger(w.details[k]) != Some(sample.blocks) {
        return false;
      }
    }
    ok := true;
  }

  /** Reads one row up to its state; None stands for a raised error. `first` says that no record was accepted yet. */
  method ReadRow(w: Worker, previous: Option<Snapshot>, row: Row, first: bool, reasons: seq<Reason>)
    returns (cur: Option<Snapshot>, order: seq<int>, reasons': seq<Reason>)
    ensures cur.Some? <==> WellFormed(w, previous, row)
    ensures cur.Some? ==> cur.value == SnapshotOf(row) && cur.value.mapping.Keys == Targets(w)
    ensures cur.Some? ==> order == Order(row.threads.value, |row.threads.value|) && |order| == |w.targets|
                          && Enumerates(order, Targets(w))
    ensures cur.Some? ==> (reasons' == [] <==>
              && reasons == [] && Errorless(Targets(w), cur.value)
              && (first ==> cur.value.state.Startup? && cur.value.sequence == 0))
  {
    cur, order, reasons' := None, [], reasons;
    var header := CheckHeader(w, row);
    if !header || (previous.Some? && row.pid.i != previous.value.pid) {
      return;
    }
    var threads, timestamp, sequence := row.threads.value, Number(row.monotonic).value, Counter(row.sequence).value;
    var mapping;
    mapping, order, reasons' := CheckThreads(w, threads, timestamp, reasons);
    var total := SumBlocks(threads);
    if mapping.None? || Counter(row.aggregate) != Some(total) || row.state.None? {
      return;
    }
    var state := row.state.value;
    if first && (!state.Startup? || sequence != 0) {
      reasons' := Issue(reasons', MissingStartup);
    }
    if !state.Initial? || forall k :: 0 <= k < |threads| ==> SampleOf(threads[k]).initial {
      cur := Some(Snapshot(sequence, row.pid.i, timestamp, state, mapping.value));
    }
  }

  /** Reads one row up to the comparison with its predecessor; None stands for a raised error. */
  method ReadRecord(w: Worker, tr: Tracker, row: Row) returns (cur: Option<Snapshot>, order: seq<int>, next: Tracker)
    ensures next == tr.(reasons := next.reasons, initialSeen := next.initialSeen)
    ensures cur.Some? <==> Readable(w, tr.Remembers(), row)
    ensures next.initialSeen == (tr.initialSeen || SeesInitial(w, tr.Remembers(), Some(row)))
    ensures cur.Some? ==> cur.value == SnapshotOf(row) && cur.value.mapping.Keys == Targets(w)
    ensures cur.Some? ==> order == Order(row.threads.value, |row.threads.value|) && |order| == |w.targets|
                          && Enumerates(order, Targets(w))
    ensures cur.Some? ==> (next.reasons == [] <==>
              && tr.reasons == [] && Errorless(Targets(w), cur.value)
              && (tr.snapshots == 0 ==> cur.value.state.Startup? && cur.value.sequence == 0))
  {
    var reasons;
    cur, order, reasons := ReadRow(w, tr.previous, row, tr.snapshots == 0, tr.reasons);
    next := tr.(reasons := reasons);
    if cur.Some? {
      next := next.(initialSeen := tr.initialSeen || cur.value.state.Initial?);
      if tr.lastState.Some? && Terminal(tr.lastState.value) {
        cur := None;
      }
    }
  }

  /** Walks all CPUs of a row; `ok` is false when one of them regressed. */
  method WalkRow(win: Window, order: seq<int>, prev: Snapshot, cur: Snapshot, stats: map<int, Stats>,
                 reasons: seq<Reason>)
    returns (ok: bool, stats': map<int, Stats>, reasons': seq<Reason>, rates: seq<real>)
    requires prev.mapping.Keys == cur.mapping.Keys == stats.Keys && Enumerates(order, stats.Keys)
    requires reasons == [] ==> cur.timestamp - prev.timestamp <= MAX_GAP && cur.sequence == prev.sequence + 1
    requires forall cpu :: cpu in stats ==> Bracketed(stats[cpu])
    ensures ok <==> AllCoherent(stats.Keys, prev, cur)
    ensures ok ==> (reasons' == [] <==> reasons == [] && AllObserved(win, stats.Keys, prev, cur))
    ensures ok ==> rates == RatesSoFar(win, order, |order|, prev, cur)
    ensures stats'.Keys == stats.Keys
    ensures forall cpu :: cpu in stats ==>
              stats'[cpu] == RowCredit(win, order, prev, cur, cpu, stats[cpu]) && Bracketed(stats'[cpu])
  {
    var credited;
    ok, credited, stats', reasons', rates := AccountIntervals(win, order, prev, cur, stats, reasons);
    WholeRowIsAllCpus(win, order, stats.Keys, prev, cur);
    CreditsKeepBrackets(win, order, credited, prev, cur, stats);
    forall cpu | cpu in stats ensures stats'[cpu] == RowCredit(win, order, prev, cur, cpu, stats[cpu]) {
      WalkCreditsThePrefix(win, order, prev, cur, stats, cpu);
    }
  }

  /** The complaints about missing records between two records. */
  method CheckGaps(prev: Snapshot, cur: Snapshot, reasons: seq<Reason>) returns (reasons': seq<Reason>)
    ensures reasons' == [] <==>
            reasons == [] && cur.sequence == prev.sequence + 1 && cur.timestamp - prev.timestamp <= MAX_GAP
  {
    reasons' := reasons;
    if cur.sequence != prev.sequence + 1 {
      reasons' := Issue(reasons', MissingSequence);
    }
    if cur.timestamp - prev.timestamp > MAX_GAP {
      reasons' := Issue(reasons', SnapshotGap);
    }
  }

  /** Compares two rows; `ok` is false when a CPU regressed. */
  method CompareRows(win: Window, order: seq<int>, prev: Snapshot, cur: Snapshot, stats: map<int, Stats>,
                     reasons: seq<Reason>)
    returns (ok: bool, stats': map<int, Stats>, reasons': seq<Reason>, rates: seq<real>)
    requires prev.mapping.Keys == cur.mapping.Keys == stats.Keys && Enumerates(order, stats.Keys)
    requires forall cpu :: cpu in stats ==> Bracketed(stats[cpu])
    ensures ok <==> AllCoherent(stats.Keys, prev, cur)
    ensures ok ==> (reasons' == [] <==> reasons == [] && Contiguous(win, stats.Keys, prev, cur))
    ensures ok ==> rates == RatesSoFar(win, order, |order|, prev, cur)
    ensures stats'.Keys == stats.Keys
    ensures forall cpu :: cpu in stats ==>
              stats'[cpu] == RowCredit(win, order, prev, cur, cpu, stats[cpu]) && Bracketed(stats'[cpu])
  {
    reasons' := CheckGaps(prev, cur, reasons);
    ok, stats', reasons', rates := WalkRow(win, order, prev, cur, stats, reasons');
  }

  /** Compares a readable row with the accepted row before it; `ok` is false when the row is rejected. */
  method CompareWithPrevious(w: Worker, win: Window, tr: Tracker, prev: Snapshot, cur: Snapshot, order: seq<int>)
    returns (ok: bool, next: Tracker)
    requires Consistent(w, tr) && prev.mapping.Keys == tr.stats.Keys == cur.mapping.Keys
    requires Enumerates(order, tr.stats.Keys) && |order| == |w.targets|
    ensures Consistent(w, next)
    ensures next == tr.(reasons := next.reasons, stats := next.stats, rates := next.rates)
    ensures ok <==> MovesOn(prev, cur) && AllCoherent(Targets(w), prev, cur)
    ensures ok ==> (next.reasons == [] <==> tr.reasons == [] && Contiguous(win, Targets(w), prev, cur))
    ensures forall cpu :: cpu in tr.stats ==>
              next.stats[cpu] == if MovesOn(prev, cur) then RowCredit(win, order, prev, cur, cpu, tr.stats[cpu])
                                 else tr.stats[cpu]
    ensures next.rates == if ok then WithRow(win, tr.rates, order, prev, cur) else tr.rates
  {
    ok, next := false, tr;
    if cur.timestamp > prev.timestamp && cur.sequence > prev.sequence {
      var stats, reasons, rates;
      ok, stats, reasons, rates := CompareRows(win, order, prev, cur, tr.stats, tr.reasons);
      WithRowSummarizes(win, tr.rates, order, prev, cur);
      next := tr.(stats := stats, reasons := reasons,
                  rates := if ok && |rates| == |w.targets| then AddRate(tr.rates, Sum(rates)) else tr.rates);
    }
  }

  /** A readable record goes on from the record before it. */
  predicate GoesOn(cpus: set<int>, m: Memory, cur: Snapshot)
  {
    m.previous.Some? ==> MovesOn(m.previous.value, cur) && AllCoherent(cpus, m.previous.value, cur)
  }

  /** Finishes a readable record; `complete` says whether it would do as a final record. */
  method FinishRecord(w: Worker, win: Window, tr: Tracker, cur: Snapshot, order: seq<int>, complete: bool)
    returns (next: Tracker, ghost accepted: bool)
    requires Consistent(w, tr) && tr.stats.Keys == cur.mapping.Keys
    requires Enumerates(order, tr.stats.Keys) && |order| == |w.targets|
    ensures Consistent(w, next)
    ensures accepted <==> GoesOn(Targets(w), tr.Remembers(), cur) && (cur.state.FinalComplete? ==> complete)
    ensures next.Remembers() == if accepted then Remembering(cur) else Memory(None, tr.lastState)
    ensures next.snapshots == tr.snapshots + (if accepted then 1 else 0) && next.initialSeen == tr.initialSeen
    ensures next.finalComplete == (tr.finalComplete || (accepted && cur.state.FinalComplete?))
    ensures next.reasons == [] <==>
            tr.reasons == [] && accepted && (tr.previous.Some? ==> Contiguous(win, Targets(w), tr.previous.value, cur))
    ensures forall cpu :: cpu in tr.stats ==>
              next.stats[cpu] == if tr.previous.Some? && MovesOn(tr.previous.value, cur)
                                 then RowCredit(win, order, tr.previous.value, cur, cpu, tr.stats[cpu])
                                 else tr.stats[cpu]
    ensures next.rates == if tr.previous.Some? && GoesOn(Targets(w), tr.Remembers(), cur)
                          then WithRow(win, tr.rates, order, tr.previous.value, cur) else tr.rates
  {
    var ok := true;
    next := tr;
    if tr.previous.Some? {
      ok, next := CompareWithPrevious(w, win, tr, tr.previous.value, cur, order);
    }
    if ok && cur.state.FinalComplete? && !complete {
      ok := false;
    }
    accepted := ok;
    if ok {
      next := next.(previous := Some(cur), lastState := Some(cur.state), snapshots := next.snapshots + 1,
                    finalComplete := next.finalComplete || cur.state.FinalComplete?);
    } else {
      next := Rejected(next);
    }
  }

  lemma {:induction false} UnreadableSteps(w: Worker, win: Window, tr: Tracker, line: Option<Row>, next: Tracker)
    requires line.Some? ==> !Readable(w, tr.Remembers(), line.value)
    requires next == tr.(previous := None, reasons := next.reasons,
                         initialSeen := tr.initialSeen || SeesInitial(w, tr.Remembers(), line))
    ensures Steps(w, win, tr, line, next)
  {
  }

  lemma {:induction false} ReadableSteps(w: Worker, win: Window, tr: Tracker, row: Row, next: Tracker, accepted: bool)
    requires Readable(w, tr.Remembers(), row)
    requires var cur, order := SnapshotOf(row), Order(row.threads.value, |row.threads.value|);
      && (accepted <==> GoesOn(Targets(w), tr.Remembers(), cur)
                        && (cur.state.FinalComplete? ==> GoodTerminal(w, row.threads.value)))
      && next.Remembers() == (if accepted then Remembering(cur) else Memory(None, tr.lastState))
      && next.snapshots == tr.snapshots + (if accepted then 1 else 0)
      && next.initialSeen == (tr.initialSeen || cur.state.Initial?)
      && next.finalComplete == (tr.finalComplete || (accepted && cur.state.FinalComplete?))
      && next.stats.Keys == tr.stats.Keys
      && (forall cpu :: cpu in tr.stats ==>
            next.stats[cpu] == if tr.previous.Some? && MovesOn(tr.previous.value, cur)
                               then RowCredit(win, order, tr.previous.value, cur, cpu, tr.stats[cpu])
                               else tr.stats[cpu])
      && next.rates == if tr.previous.Some? && GoesOn(Targets(w), tr.Remembers(), cur)
                       then WithRow(win, tr.rates, order, tr.previous.value, cur) else tr.rates
    ensures Steps(w, win, tr, Some(row), next) && (Accepted(w, tr.Remembers(), Some(row)) <==> accepted)
  {
  }

  /** One record of the log; None is a line that is not a JSON object. */
  method ObserveRecord(w: Worker, win: Window, tr: Tracker, line: Option<Row>) returns (next: Tracker)
    requires Consistent(w, tr)
    ensures Consistent(w, next) && Steps(w, win, tr, line, next)
    ensures next.previous == if Accepted(w, tr.Remembers(), line) then Some(SnapshotOf(line.value)) else None
    ensures next.reasons == [] <==> tr.reasons == [] && Admitted(w, win, tr.Remembers(), tr.snapshots == 0, line)
  {
    var read: Option<Snapshot>, order: seq<int>;
    read, order, next := None, [], tr;
    if line.Some? {
      read, order, next := ReadRecord(w, tr, line.value);
    }
    if read.Some? {
      var complete := CheckTerminal(w, line.value.threads.value);
      ghost var accepted;
      next, accepted := FinishRecord(w, win, next, read.value, order, complete);
      ReadableSteps(w, win, tr, line.value, next, accepted);
    } else {
      next := Rejected(next);
      UnreadableSteps(w, win, tr, line, next);
    }
  }
}
