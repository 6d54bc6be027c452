/**
 What a verified-progress log has to satisfy as a whole, stated without the streaming checker:
 over all pairs of snapshots, not only neighbours. Also the interval accounting and its laws.
 */
module ProgressSpec {
  import opened Options
  import opened ProgressLog
  import opened PyNumbers

  // ----- the whole-log specification

  predicate Terminal(s: State) { s.FinalComplete? || s.Failed? }

  /** The publication of a CPU; an accepted snapshot has one for every targeted CPU. */
  function At(s: Snapshot, cpu: int): Sample
  {
    if cpu in s.mapping then s.mapping[cpu] else Sample(0, 0.0, false, false, 0)
  }

  /** No work is lost, reset or published at an unchanged time. */
  predicate Coherent(left: Sample, right: Sample)
  {
    left.blocks <= right.blocks && left.published <= right.published
    && (left.published == right.published ==> left.blocks == right.blocks)
  }

  predicate Errorless(cpus: set<int>, s: Snapshot)
  {
    forall cpu :: cpu in cpus ==> At(s, cpu).errors == 0
  }

  /** Both publications lie in the trimmed window, so the work between them is counted. */
  predicate Counted(win: Window, left: Sample, right: Sample)
  {
    win.start <= left.published < right.published <= win.end
  }

  predicate Observed(win: Window, timestamp: real, left: Sample, right: Sample)
  {
    && (win.Contains(timestamp) ==> timestamp - right.published <= 6.0)
    && (Counted(win, left, right) ==> right.published - left.published <= 6.0)
  }

  predicate AllObserved(win: Window, cpus: set<int>, prev: Snapshot, cur: Snapshot)
  {
    forall cpu :: cpu in cpus ==> Observed(win, cur.timestamp, At(prev, cpu), At(cur, cpu))
  }

  predicate AllCoherent(cpus: set<int>, earlier: Snapshot, later: Snapshot)
  {
    forall cpu :: cpu in cpus ==> Coherent(At(earlier, cpu), At(later, cpu))
  }

  predicate Before(cpus: set<int>, earlier: Snapshot, later: Snapshot)
  {
    && earlier.pid == later.pid && earlier.timestamp < later.timestamp
    && !earlier.state.FinalComplete? && !earlier.state.Failed? && AllCoherent(cpus, earlier, later)
  }

  ghost predicate WholeLog(win: Window, cpus: set<int>, snaps: seq<Snapshot>)
  {
    && (snaps != [] ==> snaps[0].state.Startup?)
    && (forall i :: 0 <= i < |snaps| ==> snaps[i].sequence == i && Errorless(cpus, snaps[i]))
    && (forall i, j :: 0 <= i < j < |snaps| ==> Before(cpus, snaps[i], snaps[j]))
    && (forall i, j :: 0 <= i && j == i + 1 < |snaps| ==>
          snaps[j].timestamp - snaps[i].timestamp <= 6.0 && AllObserved(win, cpus, snaps[i], snaps[j]))
  }

  // ----- the same log seen one record at a time

  /** A later record is admitted after `prev`; otherwise it is rejected and the history is forgotten. */
  predicate Follows(cpus: set<int>, prev: Snapshot, cur: Snapshot)
  {
    Before(cpus, prev, cur) && prev.sequence < cur.sequence
  }

  predicate Contiguous(win: Window, cpus: set<int>, prev: Snapshot, cur: Snapshot)
  {
    && cur.sequence == prev.sequence + 1 && cur.timestamp - prev.timestamp <= MAX_GAP
    && AllObserved(win, cpus, prev, cur)
  }

  predicate CleanAt(win: Window, cpus: set<int>, snaps: seq<Snapshot>, i: nat)
    requires i < |snaps|
  {
    && Errorless(cpus, snaps[i])
    && (i == 0 ==> snaps[0].state.Startup? && snaps[0].sequence == 0)
    && (i > 0 ==> Follows(cpus, snaps[i - 1], snaps[i]) && Contiguous(win, cpus, snaps[i - 1], snaps[i]))
  }

  predicate CleanLog(win: Window, cpus: set<int>, snaps: seq<Snapshot>)
  {
    forall i :: 0 <= i < |snaps| ==> CleanAt(win, cpus, snaps, i)
  }

  lemma {:induction false} CleanLogOrders(win: Window, cpus: set<int>, snaps: seq<Snapshot>, i: nat, j: nat)
    requires CleanLog(win, cpus, snaps) && i < j < |snaps|
    ensures snaps[i].sequence == i && snaps[j].sequence == j && Before(cpus, snaps[i], snaps[j])
    decreases j
  {
    assert CleanAt(win, cpus, snaps, j) && CleanAt(win, cpus, snaps, 0);
    if i < j - 1 {
      CleanLogOrders(win, cpus, snaps, i, j - 1);
      forall cpu | cpu in cpus ensures Coherent(At(snaps[i], cpu), At(snaps[j], cpu)) {
        assert Coherent(At(snaps[i], cpu), At(snaps[j - 1], cpu));
        assert Coherent(At(snaps[j - 1], cpu), At(snaps[j], cpu));
      }
    } else if i > 0 {
      CleanLogOrders(win, cpus, snaps, 0, i);
    }
  }

  /** Checking neighbours only is enough for the specification over all pairs, and no stricter. */
  lemma {:induction false} NeighbourChecksAreWholeLog(win: Window, cpus: set<int>, snaps: seq<Snapshot>)
    ensures CleanLog(win, cpus, snaps) <==> WholeLog(win, cpus, snaps)
  {
    if CleanLog(win, cpus, snaps) {
      forall i | 0 <= i < |snaps| ensures snaps[i].sequence == i && Errorless(cpus, snaps[i]) {
        assert CleanAt(win, cpus, snaps, i);
        if i > 0 { CleanLogOrders(win, cpus, snaps, 0, i); }
      }
      forall i, j | 0 <= i < j < |snaps| ensures Before(cpus, snaps[i], snaps[j]) {
        CleanLogOrders(win, cpus, snaps, i, j);
      }
      forall i, j | 0 <= i && j == i + 1 < |snaps|
        ensures snaps[j].timestamp - snaps[i].timestamp <= MAX_GAP && AllObserved(win, cpus, snaps[i], snaps[j])
      {
        assert CleanAt(win, cpus, snaps, j);
      }
      assert snaps != [] ==> CleanAt(win, cpus, snaps, 0);
    }
    if WholeLog(win, cpus, snaps) {
      forall i | 0 <= i < |snaps| ensures CleanAt(win, cpus, snaps, i) {
        if i > 0 {
          assert Before(cpus, snaps[i - 1], snaps[i]);
          assert snaps[i - 1].sequence == i - 1;
        }
      }
    }
  }

  // ----- interval accounting

  datatype Stats = Stats(intervals: nat, blocks: int, seconds: real, stalls: nat,
                         minRate: Option<real>, maxRate: Option<real>)

  const EMPTY_STATS := Stats(0, 0, 0.0, 0, None, None)

  function Least(a: Option<real>, b: real): Option<real>
  {
    if a.None? || b < a.value then Some(b) else a
  }

  function Greatest(a: Option<real>, b: real): Option<real>
  {
    if a.None? || b > a.value then Some(b) else a
  }

  predicate IsQuotient(q: real, a: real, b: real) { q * b == a }

  /** a / b, characterized by multiplication. */
  ghost function Quotient(a: real, b: real): real
    requires b != 0.0
  {
    assert IsQuotient(a / b, a, b);
    var q: real :| IsQuotient(q, a, b);
    q
  }

  method Divide(a: real, b: real) returns (q: real)
    requires b != 0.0
    ensures q == Quotient(a, b)
  {
    q := a / b;
    QuotientIsUnique(q, Quotient(a, b), a, b);
  }

  lemma {:induction false} QuotientIsUnique(p: real, q: real, a: real, b: real)
    requires b != 0.0 && IsQuotient(p, a, b) && IsQuotient(q, a, b)
    ensures p == q
  {
    assert (p - q) * b == 0.0;
  }

  ghost function Rate(left: Sample, right: Sample): real
    requires left.published < right.published
  {
    Quotient((right.blocks - left.blocks) as real, right.published - left.published)
  }

  ghost function AddInterval(s: Stats, left: Sample, right: Sample): Stats
    requires left.published < right.published
  {
    var rate := Rate(left, right);
    Stats(s.intervals + 1, s.blocks + right.blocks - left.blocks,
          s.seconds + (right.published - left.published),
          s.stalls + (if right.blocks == left.blocks then 1 else 0),
          Least(s.minRate, rate), Greatest(s.maxRate, rate))
  }

  ghost function WithInterval(win: Window, s: Stats, prev: Snapshot, cur: Snapshot, cpu: int): Stats
  {
    if Counted(win, At(prev, cpu), At(cur, cpu)) then AddInterval(s, At(prev, cpu), At(cur, cpu)) else s
  }

  /** The work between two publications is credited: inside the window and without a gap of any kind. */
  predicate Credited(win: Window, prev: Snapshot, cur: Snapshot, cpu: int)
  {
    && Counted(win, At(prev, cpu), At(cur, cpu)) && At(cur, cpu).published - At(prev, cpu).published <= MAX_GAP
    && cur.timestamp - prev.timestamp <= MAX_GAP && cur.sequence == prev.sequence + 1
  }

  /** What one CPU is credited with between two snapshots of any log, contiguous or not. */
  ghost function Credit(win: Window, s: Stats, prev: Snapshot, cur: Snapshot, cpu: int): Stats
  {
    if Credited(win, prev, cur, cpu) then AddInterval(s, At(prev, cpu), At(cur, cpu)) else s
  }

  /** The accounting of one CPU over the first n snapshots of a clean log. */
  ghost function Account(win: Window, snaps: seq<Snapshot>, cpu: int, n: nat): Stats
    requires n <= |snaps|
  {
    if n <= 1 then EMPTY_STATS
    else WithInterval(win, Account(win, snaps, cpu, n - 1), snaps[n - 2], snaps[n - 1], cpu)
  }

  /** A total over n units lies between n times the least and n times the greatest of them. */
  predicate Within(low: real, high: real, n: real, total: real) { low * n <= total <= high * n }

  lemma {:induction false} WithinWidens(low: real, high: real, n: real, total: real, low': real, high': real)
    requires n >= 0.0 && Within(low, high, n, total) && low' <= low && high <= high'
    ensures Within(low', high', n, total)
  {
    ScaleIsMonotone(low', low, n);
    ScaleIsMonotone(high, high', n);
  }

  lemma {:induction false} WithinAdds(low: real, high: real, n: real, total: real, m: real, more: real)
    requires Within(low, high, n, total) && Within(low, high, m, more)
    ensures Within(low, high, n + m, total + more)
  {
    assert low * (n + m) == low * n + low * m && high * (n + m) == high * n + high * m;
  }

  lemma {:induction false} QuotientWithin(a: real, b: real, low: real, high: real)
    requires b > 0.0 && Within(low, high, b, a)
    ensures low <= Quotient(a, b) <= high
  {
    var q := Quotient(a, b);
    FactorOrder(low, q, b);
    FactorOrder(q, high, b);
  }

  predicate Bracketed(s: Stats)
  {
    if s.intervals == 0 then s == EMPTY_STATS
    else s.seconds > 0.0 && s.minRate.Some? && s.maxRate.Some?
         && Within(s.minRate.value, s.maxRate.value, s.seconds, s.blocks as real)
  }

  lemma {:induction false} AddIntervalKeepsBracket(s: Stats, left: Sample, right: Sample)
    requires Bracketed(s) && left.published < right.published
    ensures Bracketed(AddInterval(s, left, right))
  {
    var rate, elapsed := Rate(left, right), right.published - left.published;
    var work := (right.blocks - left.blocks) as real;
    var s' := AddInterval(s, left, right);
    var low, high := s'.minRate.value, s'.maxRate.value;
    WithinWidens(rate, rate, elapsed, work, low, high);
    if s.intervals > 0 {
      WithinWidens(s.minRate.value, s.maxRate.value, s.seconds, s.blocks as real, low, high);
      WithinAdds(low, high, s.seconds, s.blocks as real, elapsed, work);
    }
  }

  /** The overall rate of a CPU lies between its slowest and its fastest interval. */
  lemma {:induction false} OverallRateIsBetweenExtremes(s: Stats)
    requires Bracketed(s) && s.seconds != 0.0
    ensures s.minRate.value <= Quotient(s.blocks as real, s.seconds) <= s.maxRate.value
  {
    QuotientWithin(s.blocks as real, s.seconds, s.minRate.value, s.maxRate.value);
  }

  // ----- telescoping

  predicate Inside(win: Window, s: Snapshot, cpu: int) { win.Contains(At(s, cpu).published) }

  lemma {:induction false} NothingBeforeTheWindow(win: Window, cpus: set<int>, snaps: seq<Snapshot>, cpu: int, n: nat)
    requires WholeLog(win, cpus, snaps) && cpu in cpus && n <= |snaps|
    requires forall i :: 0 <= i < n - 1 ==> At(snaps[i], cpu).published < win.start
    ensures Account(win, snaps, cpu, n) == EMPTY_STATS
  {
    if n > 1 { NothingBeforeTheWindow(win, cpus, snaps, cpu, n - 1); }
  }

  /** Between two snapshots inside the window the accounting telescopes. */
  lemma {:induction false} AccountTelescopes(win: Window, cpus: set<int>, snaps: seq<Snapshot>, cpu: int, first: nat,
                                             last: nat)
    requires WholeLog(win, cpus, snaps) && cpu in cpus && first <= last < |snaps|
    requires Inside(win, snaps[first], cpu) && Inside(win, snaps[last], cpu)
    requires forall i :: 0 <= i < first ==> !Inside(win, snaps[i], cpu)
    ensures var s := Account(win, snaps, cpu, last + 1);
            && s.blocks == At(snaps[last], cpu).blocks - At(snaps[first], cpu).blocks
            && s.seconds == At(snaps[last], cpu).published - At(snaps[first], cpu).published
    decreases last
  {
    if first == last {
      forall i | 0 <= i < first ensures At(snaps[i], cpu).published < win.start {
        assert Before(cpus, snaps[i], snaps[first]);
        assert Coherent(At(snaps[i], cpu), At(snaps[first], cpu));
      }
      NothingBeforeTheWindow(win, cpus, snaps, cpu, first + 1);
    } else {
      assert Before(cpus, snaps[last - 1], snaps[last]);
      assert Coherent(At(snaps[last - 1], cpu), At(snaps[last], cpu));
      if first < last - 1 {
        assert Before(cpus, snaps[first], snaps[last - 1]);
        assert Coherent(At(snaps[first], cpu), At(snaps[last - 1], cpu));
      }
      AccountTelescopes(win, cpus, snaps, cpu, first, last - 1);
    }
  }

  lemma {:induction false} NothingAfterTheWindow(win: Window, cpus: set<int>, snaps: seq<Snapshot>, cpu: int,
                                                 last: nat, n: nat)
    requires WholeLog(win, cpus, snaps) && cpu in cpus && last < n <= |snaps|
    requires forall i :: last < i < n ==> !Inside(win, snaps[i], cpu)
    requires Inside(win, snaps[last], cpu)
    ensures Account(win, snaps, cpu, n) == Account(win, snaps, cpu, last + 1)
    decreases n
  {
    if n > last + 1 {
      assert Before(cpus, snaps[last], snaps[n - 1]);
      assert Coherent(At(snaps[last], cpu), At(snaps[n - 1], cpu));
      assert At(snaps[n - 1], cpu).published > win.end;
      NothingAfterTheWindow(win, cpus, snaps, cpu, last, n - 1);
    }
  }

  /** No work is counted twice or across a gap: the account of a CPU is exactly the difference between
      its last and its first publication inside the trimmed window. */
  lemma {:induction false} AccountIsLastMinusFirst(win: Window, cpus: set<int>, snaps: seq<Snapshot>, cpu: int,
                                                   first: nat, last: nat)
    requires WholeLog(win, cpus, snaps) && cpu in cpus && first <= last < |snaps|
    requires Inside(win, snaps[first], cpu) && Inside(win, snaps[last], cpu)
    requires forall i :: 0 <= i < |snaps| && Inside(win, snaps[i], cpu) ==> first <= i <= last
    ensures var s := Account(win, snaps, cpu, |snaps|);
            && s.blocks == At(snaps[last], cpu).blocks - At(snaps[first], cpu).blocks
            && s.seconds == At(snaps[last], cpu).published - At(snaps[first], cpu).published
  {
    AccountTelescopes(win, cpus, snaps, cpu, first, last);
    NothingAfterTheWindow(win, cpus, snaps, cpu, last, |snaps|);
  }

  lemma {:induction false} NoInsideNoWork(win: Window, snaps: seq<Snapshot>, cpu: int, n: nat)
    requires n <= |snaps|
    requires forall i :: 0 <= i < n ==> !Inside(win, snaps[i], cpu)
    ensures Account(win, snaps, cpu, n) == EMPTY_STATS
  {
    if n > 1 {
      assert !Inside(win, snaps[n - 1], cpu) && !Inside(win, snaps[n - 2], cpu);
      NoInsideNoWork(win, snaps, cpu, n - 1);
    }
  }

  /** The first and last snapshots inside the window, if any snapshot is. */
  lemma {:induction false} FirstAndLastInside(win: Window, snaps: seq<Snapshot>, cpu: int, n: nat)
    returns (first: int, last: int)
    requires n <= |snaps|
    ensures forall i :: 0 <= i < n && Inside(win, snaps[i], cpu) ==> first <= i <= last
    ensures first <= last ==> 0 <= first && last < n && Inside(win, snaps[first], cpu) && Inside(win, snaps[last], cpu)
    ensures first > last ==> forall i :: 0 <= i < n ==> !Inside(win, snaps[i], cpu)
  {
    if n == 0 {
      first, last := 0, -1;
    } else {
      first, last := FirstAndLastInside(win, snaps, cpu, n - 1);
      if Inside(win, snaps[n - 1], cpu) {
        first, last := if first <= last then first else n - 1, n - 1;
      }
    }
  }

  lemma {:induction false} CreditKeepsBracket(win: Window, s: Stats, prev: Snapshot, cur: Snapshot, cpu: int)
    requires Bracketed(s)
    ensures Bracketed(Credit(win, s, prev, cur, cpu)) && Bracketed(WithInterval(win, s, prev, cur, cpu))
  {
    if Counted(win, At(prev, cpu), At(cur, cpu)) { AddIntervalKeepsBracket(s, At(prev, cpu), At(cur, cpu)); }
  }

  lemma {:induction false} AccountIsBracketed(win: Window, snaps: seq<Snapshot>, cpu: int, n: nat)
    requires n <= |snaps|
    ensures Bracketed(Account(win, snaps, cpu, n))
  {
    if n > 1 {
      AccountIsBracketed(win, snaps, cpu, n - 1);
      CreditKeepsBracket(win, Account(win, snaps, cpu, n - 1), snaps[n - 2], snaps[n - 1], cpu);
    }
  }

  /** Coverage never exceeds one, even without the cap. */
  lemma {:induction false} ObservedTimeFitsTheWindow(win: Window, cpus: set<int>, snaps: seq<Snapshot>, cpu: int)
    requires WholeLog(win, cpus, snaps) && cpu in cpus && win.start < win.end
    ensures Account(win, snaps, cpu, |snaps|).seconds <= win.end - win.start
    ensures 0.0 <= Quotient(Account(win, snaps, cpu, |snaps|).seconds, win.end - win.start) <= 1.0
  {
    var first, last := FirstAndLastInside(win, snaps, cpu, |snaps|);
    if first <= last {
      AccountIsLastMinusFirst(win, cpus, snaps, cpu, first, last);
    } else {
      NoInsideNoWork(win, snaps, cpu, |snaps|);
    }
    var seconds := Account(win, snaps, cpu, |snaps|).seconds;
    AccountIsBracketed(win, snaps, cpu, |snaps|);
    QuotientWithin(seconds, win.end - win.start, 0.0, 1.0);
  }
}
