/** Finite sets of integers and their sorted lists. */
module IntSets {
  predicate StrictlyIncreasing(xs: seq<int>)
  {
    forall i, j :: 0 <= i < j < |xs| ==> xs[i] < xs[j]
  }

  lemma {:induction false} Pick<T>(s: set<T>) returns (x: T)
    requires s != {}
    ensures x in s
  {
    x :| x in s;
  }

  lemma {:induction false} LeastExists(s: set<int>) returns (least: int)
    requires s != {}
    ensures least in s && forall y :: y in s ==> least <= y
    decreases |s|
  {
    var x := Pick(s);
    least := x;
    if s != {x} {
      var m := LeastExists(s - {x});
      least := if x < m then x else m;
    }
    forall y | y in s ensures least <= y {
      assert y == x || y in s - {x};
    }
  }

  /** sorted(s). */
  function SortedIds(s: set<int>): (r: seq<int>)
    ensures StrictlyIncreasing(r) && forall x :: x in r <==> x in s
    decreases |s|
  {
    if s == {} then []
    else
      assert exists m :: m in s && forall y :: y in s ==> m <= y by { var least := LeastExists(s); }
      var m :| m in s && forall y :: y in s ==> m <= y;
      assert forall x :: x in s <==> x == m || x in s - {m};
      [m] + SortedIds(s - {m})
  }

  /** set(range(low, high + 1)). */
  function Interval(low: int, high: int): (s: set<int>)
    ensures forall x :: x in s <==> low <= x <= high
    decreases high - low
  {
    if high < low then {} else Interval(low, high - 1) + {high}
  }

  lemma {:induction false} FirstIsLeast(xs: seq<int>, x: int)
    requires StrictlyIncreasing(xs) && x in xs
    ensures xs[0] <= x
  {
    var i :| 0 <= i < |xs| && xs[i] == x;
    assert i == 0 || xs[0] < xs[i];
  }

  lemma {:induction false} InTail(xs: seq<int>, x: int)
    requires StrictlyIncreasing(xs) && xs != []
    ensures x in xs[1..] <==> x in xs && x != xs[0]
  {
    if x in xs && x != xs[0] {
      var i :| 0 <= i < |xs| && xs[i] == x;
      assert xs[1..][i - 1] == x;
    }
    if x in xs[1..] {
      var i :| 0 <= i < |xs| - 1 && xs[1..][i] == x;
      assert xs[0] < xs[i + 1];
    }
  }

  /** A strictly increasing list is determined by its elements. */
  lemma {:induction false} SameElementsSameList(a: seq<int>, b: seq<int>)
    requires StrictlyIncreasing(a) && StrictlyIncreasing(b) && forall x :: x in a <==> x in b
    ensures a == b
  {
    assert (a != [] ==> a[0] in a) && (b != [] ==> b[0] in b);
    if a != [] && b != [] {
      FirstIsLeast(a, b[0]);
      FirstIsLeast(b, a[0]);
      forall x ensures x in a[1..] <==> x in b[1..] {
        InTail(a, x);
        InTail(b, x);
      }
      SameElementsSameList(a[1..], b[1..]);
    }
  }
}
