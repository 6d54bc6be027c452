/**
 The data of a verified-progress sidecar: raw JSON fields as the worker wrote them, the row
 that they decode to, and the whole-log specification. Time is real-valued.
 */
module ProgressLog {
  import opened IntSets
  import opened Options

  const UINT64_MAX: int := 0x1_0000_0000_0000_0000 - 1
  const MAX_GAP: real := 6.0

  /** A JSON field. `NonFinite` also covers integers too large for a double; `Opaque` is a string,
      list or object; a missing field is `Null`. */
  datatype Json = Null | Flag(b: bool) | Whole(i: int) | Fraction(r: real) | NonFinite | Opaque

  datatype State = Startup | Initial | Ongoing | Interrupted | FinalComplete | Failed

  datatype ThreadRow = ThreadRow(
    index: Json, cpu: Json, blocks: Json, errors: Json, initial: Json, periodic: Json,
    final: Json, affinity: Json, published: Json, observedCpu: Json,
    geometryMatches: bool)  // the vector-length comparisons, a given verdict here

  datatype Row = Row(
    contractMatches: bool, sequence: Json, pid: Json, monotonic: Json, realtime: Json,
    uncertainty: Json, threads: Option<seq<ThreadRow>>, aggregate: Json, state: Option<State>)

  /** How reading the file ended: at a newline, in an unterminated record, or with an I/O or decoding error. */
  datatype Tail = Clean | Truncated | Unreadable

  datatype Worker = Worker(
    contractRecognized: bool, persistenceError: bool, targets: seq<Json>,
    vectorGeometryValid: bool, laneGeometryValid: bool, processPid: Json,
    details: seq<Json>,  // arithmetic_verified_blocks of each authoritative thread
    snapshotCount: Option<Json>, verificationSatisfied: bool, exitCode: Json)

  datatype Window = Window(start: real, end: real, minimumUsable: Option<real>, telemetrySufficient: bool)
  {
    predicate Contains(t: real) { start <= t <= end }
  }

  // ----- scalar decoding

  /** _counter: only a true integer within 64 unsigned bits. */
  function Counter(v: Json): (r: Option<nat>)
    ensures r.Some? <==> v.Whole? && 0 <= v.i < 0x1_0000_0000_0000_0000
    ensures r.Some? ==> v == Whole(r.value)
  {
    if v.Whole? && 0 <= v.i <= UINT64_MAX then Some(v.i) else None
  }

  /** _number: finite numbers, but no booleans. */
  function Number(v: Json): (r: Option<real>)
    ensures r.Some? <==> v.Whole? || v.Fraction?
    ensures r.Some? ==> v == Fraction(r.value) || (v.Whole? && v.i as real == r.value)
  {
    match v
    case Whole(i) => Some(i as real)
    case Fraction(r) => Some(r)
    case _ => None
  }

  /** The integer that a Python number equals, if there is one: true equals 1 and 2.0 equals 2. */
  function AsInteger(v: Json): (r: Option<int>)
    ensures r.Some? ==> v == Whole(r.value) || v == Flag(r.value == 1) || v == Fraction(r.value as real)
    ensures r.None? <==> v.Null? || v.NonFinite? || v.Opaque? || (v.Fraction? && v.r != v.r.Floor as real)
  {
    match v
    case Whole(i) => Some(i)
    case Flag(b) => Some(if b then 1 else 0)
    case Fraction(r) => if r == r.Floor as real then Some(r.Floor) else None
    case _ => None
  }

  function IntegerOr(v: Json, default: int): int
  {
    match AsInteger(v) case Some(i) => i case None => default
  }

  predicate IsSet(v: Json) { v == Flag(true) }

  // ----- thread rows

  /** One accepted thread publication. */
  datatype Sample = Sample(blocks: nat, published: real, initial: bool, complete: bool, errors: nat)

  function Cpu(t: ThreadRow): int { IntegerOr(t.cpu, -1) }

  function SampleOf(t: ThreadRow): Sample
  {
    Sample(match Counter(t.blocks) case Some(n) => n case None => 0,
           match Number(t.published) case Some(r) => r case None => 0.0,
           IsSet(t.initial), IsSet(t.initial) && IsSet(t.periodic) && IsSet(t.final),
           match Counter(t.errors) case Some(n) => n case None => 0)
  }

  predicate GoodThread(cpus: seq<int>, t: ThreadRow, index: nat, timestamp: real)
  {
    && AsInteger(t.index) == Some(index)
    && AsInteger(t.cpu).Some? && AsInteger(t.cpu).value in cpus
    && Counter(t.blocks).Some? && Counter(t.errors).Some?
    && t.initial.Flag? && t.periodic.Flag? && t.final.Flag? && t.affinity.Flag?
    && Number(t.published).Some?
    && 0.0 <= Number(t.published).value <= timestamp + 0.001
    && (t.blocks != Whole(0) ==>
          && t.initial == t.affinity == Flag(true) && AsInteger(t.observedCpu) == AsInteger(t.cpu)
          && t.geometryMatches)
  }

  ghost predicate GoodThreads(cpus: seq<int>, threads: seq<ThreadRow>, timestamp: real)
  {
    && (forall k :: 0 <= k < |threads| ==> GoodThread(cpus, threads[k], k, timestamp))
    && DistinctCpus(threads, |threads|)
  }

  /** The publications of the first n threads by CPU. */
  function MappingOf(threads: seq<ThreadRow>, n: nat): map<int, Sample>
    requires n <= |threads|
  {
    if n == 0 then map[] else MappingOf(threads, n - 1)[Cpu(threads[n - 1]) := SampleOf(threads[n - 1])]
  }

  /** The number a counter field holds. */
  function Blocks(t: ThreadRow): (n: nat)
    ensures Counter(t.blocks).Some? ==> t.blocks == Whole(n)
  {
    match Counter(t.blocks) case Some(n) => n case None => 0
  }

  function TotalBlocks(threads: seq<ThreadRow>): nat
  {
    if threads == [] then 0 else TotalBlocks(threads[..|threads| - 1]) + Blocks(threads[|threads| - 1])
  }

  lemma {:induction false} TotalOfOne(t: ThreadRow)
    ensures TotalBlocks([t]) == Blocks(t)
  {
    assert [t][..0] == [];
  }

  /** The total is additive, so it counts every thread once. */
  lemma {:induction false} TotalOfBoth(a: seq<ThreadRow>, b: seq<ThreadRow>)
    ensures TotalBlocks(a + b) == TotalBlocks(a) + TotalBlocks(b)
  {
    if b == [] {
      assert a + b == a;
    } else {
      var front := b[..|b| - 1];
      TotalOfBoth(a, front);
      assert (a + b)[..|a + b| - 1] == a + front;
    }
  }

  // ----- rows

  datatype Snapshot = Snapshot(sequence: nat, pid: int, timestamp: real, state: State, mapping: map<int, Sample>)

  /** The targeted CPU identities; meaningful when ValidTargets holds. */
  function Cpus(w: Worker): (cpus: seq<int>)
    ensures |cpus| == |w.targets|
    ensures forall k :: 0 <= k < |cpus| && w.targets[k].Whole? ==> w.targets[k] == Whole(cpus[k])
  {
    seq(|w.targets|, k requires 0 <= k < |w.targets| => if w.targets[k].Whole? then w.targets[k].i else -1)
  }

  function Targets(w: Worker): set<int> { set cpu | cpu in Cpus(w) }

  predicate ValidTargets(w: Worker)
  {
    && w.targets != []
    && (forall k :: 0 <= k < |w.targets| ==> w.targets[k].Whole? && w.targets[k].i >= 0)
    && (forall j, k :: 0 <= j < k < |w.targets| ==> w.targets[j] != w.targets[k])
  }

  /** The authoritative thread results report the same work, thread by thread. */
  predicate MatchesDetails(w: Worker, threads: seq<ThreadRow>)
  {
    && |w.details| == |threads|
    && forall k :: 0 <= k < |threads| ==>
         threads[k].blocks.Whole? && AsInteger(w.details[k]) == Some(threads[k].blocks.i)
  }

  predicate GoodHeader(w: Worker, row: Row)
  {
    && row.contractMatches && Counter(row.sequence).Some?
    && row.pid.Whole? && row.pid.i > 0
    && Number(row.monotonic).Some? && Number(row.realtime).Some?
    && Number(row.uncertainty).Some? && Number(row.uncertainty).value >= 0.0
    && (w.processPid.Null? || AsInteger(w.processPid) == Some(row.pid.i))
    && row.threads.Some? && |row.threads.value| == |w.targets|
  }

  /** The row is acceptable on its own, whatever came before it. */
  ghost predicate GoodRow(w: Worker, row: Row)
  {
    && GoodHeader(w, row)
    && GoodThreads(Cpus(w), row.threads.value, Number(row.monotonic).value)
    && Counter(row.aggregate) == Some(TotalBlocks(row.threads.value))
    && row.state.Some?
    && (row.state.value.Initial? ==> AllInitial(row.threads.value))
    && (row.state.value.FinalComplete? ==> GoodTerminal(w, row.threads.value))
  }

  /** Every thread has passed its initial verification. */
  predicate AllInitial(threads: seq<ThreadRow>)
  {
    forall k :: 0 <= k < |threads| ==> threads[k].initial == Flag(true)
  }

  /** Every thread has passed all verifications without an error. */
  predicate AllComplete(threads: seq<ThreadRow>)
  {
    forall k :: 0 <= k < |threads| ==>
      && threads[k].initial == threads[k].periodic == threads[k].final == Flag(true)
      && threads[k].errors == Whole(0)
  }

  predicate GoodTerminal(w: Worker, threads: seq<ThreadRow>)
  {
    AllComplete(threads) && MatchesDetails(w, threads)
  }

  function SnapshotOf(row: Row): Snapshot
    requires row.threads.Some? && row.pid.Whole? && row.state.Some?
    requires Counter(row.sequence).Some? && Number(row.monotonic).Some?
  {
    Snapshot(Counter(row.sequence).value, row.pid.i, Number(row.monotonic).value, row.state.value,
             MappingOf(row.threads.value, |row.threads.value|))
  }

  ghost predicate DistinctCpus(threads: seq<ThreadRow>, n: nat)
    requires n <= |threads|
  {
    forall j, k :: 0 <= j < k < n ==> Cpu(threads[j]) != Cpu(threads[k])
  }

  /** Inserting the publications of distinct CPUs one by one keeps each of them. */
  lemma {:induction false} MappingKeepsThread(threads: seq<ThreadRow>, n: nat, k: nat)
    requires k < n <= |threads| && DistinctCpus(threads, n)
    ensures Cpu(threads[k]) in MappingOf(threads, n) && MappingOf(threads, n)[Cpu(threads[k])] == SampleOf(threads[k])
  {
    if k < n - 1 { MappingKeepsThread(threads, n - 1, k); }
  }

  lemma {:induction false} KeyHasThread(threads: seq<ThreadRow>, n: nat, cpu: int) returns (k: nat)
    requires n <= |threads| && cpu in MappingOf(threads, n)
    ensures k < n && Cpu(threads[k]) == cpu
  {
    if Cpu(threads[n - 1]) == cpu { k := n - 1; } else { k := KeyHasThread(threads, n - 1, cpu); }
  }

  lemma {:induction false} MappingSize(threads: seq<ThreadRow>, n: nat)
    requires n <= |threads| && DistinctCpus(threads, n)
    ensures |MappingOf(threads, n)| == n
  {
    if n > 0 {
      MappingSize(threads, n - 1);
      if Cpu(threads[n - 1]) in MappingOf(threads, n - 1) {
        var k := KeyHasThread(threads, n - 1, Cpu(threads[n - 1]));
        assert false;
      }
    }
  }

  lemma {:induction false} SubsetSize(a: set<int>, b: set<int>)
    requires a <= b
    ensures |a| <= |b|
    ensures |a| == |b| ==> a == b
  {
    assert b == a + (b - a);
    assert |b| == |a| + |b - a|;
  }

  lemma {:induction false} SeqSetSize(xs: seq<int>)
    ensures |set x | x in xs| <= |xs|
  {
    if xs != [] {
      SeqSetSize(xs[1..]);
      assert (set x | x in xs) == {xs[0]} + (set x | x in xs[1..]);
    }
  }

  /** An accepted row publishes exactly the targeted CPUs, so looking up an older publication
      of any of its CPUs cannot fail. */
  lemma {:induction false} GoodRowCoversTargets(w: Worker, row: Row)
    requires GoodRow(w, row)
    ensures SnapshotOf(row).mapping.Keys == Targets(w)
  {
    MappingCoversTargets(w, row.threads.value, Number(row.monotonic).value);
  }

  lemma {:induction false} MappingCoversTargets(w: Worker, threads: seq<ThreadRow>, timestamp: real)
    requires GoodThreads(Cpus(w), threads, timestamp) && |threads| == |w.targets|
    ensures MappingOf(threads, |threads|).Keys == Targets(w)
  {
    var keys := MappingOf(threads, |threads|).Keys;
    forall cpu | cpu in keys ensures cpu in Targets(w) {
      var k := KeyHasThread(threads, |threads|, cpu);
      assert GoodThread(Cpus(w), threads[k], k, timestamp);
    }
    MappingSize(threads, |threads|);
    assert |keys| == |MappingOf(threads, |threads|)|;
    SeqSetSize(Cpus(w));
    SubsetSize(keys, Targets(w));
  }

  // ----- what an accepted row says

  /** Blocks over all CPUs of a snapshot. */
  ghost function BlocksOver(m: map<int, Sample>): nat
    decreases |m|
  {
    if m.Keys == {} then 0
    else m[SomeCpu(m)].blocks + BlocksOver(m - {SomeCpu(m)})
  }

  ghost function SomeCpu(m: map<int, Sample>): (cpu: int)
    requires m.Keys != {}
    ensures cpu in m
  {
    assert exists cpu :: cpu in m.Keys by { var cpu := Pick(m.Keys); }
    var cpu :| cpu in m.Keys;
    cpu
  }

  /** The sum does not depend on the order in which the CPUs are taken. */
  lemma {:induction false} BlocksWithout(m: map<int, Sample>, cpu: int)
    requires cpu in m
    ensures BlocksOver(m) == m[cpu].blocks + BlocksOver(m - {cpu})
    decreases |m|
  {
    assert m.Keys != {};
    var first := SomeCpu(m);
    if first != cpu {
      BlocksWithout(m - {first}, cpu);
      BlocksWithout(m - {cpu}, first);
      assert m - {first} - {cpu} == m - {cpu} - {first};
    }
  }

  lemma {:induction false} TotalIsOverCpus(threads: seq<ThreadRow>, n: nat)
    requires n <= |threads| && DistinctCpus(threads, n)
    ensures TotalBlocks(threads[..n]) == BlocksOver(MappingOf(threads, n))
  {
    if n > 0 {
      var before, cpu := MappingOf(threads, n - 1), Cpu(threads[n - 1]);
      TotalIsOverCpus(threads, n - 1);
      assert threads[..n][..n - 1] == threads[..n - 1];
      if cpu in before { var k := KeyHasThread(threads, n - 1, cpu); }
      assert MappingOf(threads, n) - {cpu} == before;
      BlocksWithout(MappingOf(threads, n), cpu);
    }
  }

  /** The aggregate of an accepted row is the sum over its CPUs. */
  lemma {:induction false} AggregateIsTheSum(w: Worker, row: Row)
    requires GoodRow(w, row)
    ensures row.aggregate == Whole(BlocksOver(SnapshotOf(row).mapping))
  {
    var threads := row.threads.value;
    TotalIsOverCpus(threads, |threads|);
    assert threads[..|threads|] == threads;
  }

  /** The snapshot of an accepted row holds what each thread wrote, under its CPU. */
  lemma {:induction false} RowIsReadAsWritten(w: Worker, row: Row, k: nat)
    requires GoodRow(w, row) && k < |row.threads.value|
    ensures var t, s := row.threads.value[k], SnapshotOf(row);
      && AsInteger(t.cpu).Some? && AsInteger(t.cpu).value in s.mapping
      && var sample := s.mapping[AsInteger(t.cpu).value];
      && t.blocks == Whole(sample.blocks) && t.errors == Whole(sample.errors)
      && Number(t.published) == Some(sample.published)
      && (sample.initial <==> t.initial == Flag(true))
      && (sample.complete <==> t.initial == t.periodic == t.final == Flag(true))
      && row.sequence == Whole(s.sequence) && row.pid == Whole(s.pid) && Number(row.monotonic) == Some(s.timestamp)
      && row.state == Some(s.state)
  {
    var threads := row.threads.value;
    assert GoodThread(Cpus(w), threads[k], k, Number(row.monotonic).value);
    MappingKeepsThread(threads, |threads|, k);
  }
}
