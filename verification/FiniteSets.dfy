/** Facts about finite sets of integers and duplicate-free sequences that the table proofs share. */
module FiniteSets {

  ghost predicate Distinct<T>(s: seq<T>) {
    forall i, j :: 0 <= i < j < |s| ==> s[i] != s[j]
  }

  ghost function Elements<T>(s: seq<T>): set<T> {
    set x | x in s
  }

  lemma SplitLast<T>(s: seq<T>)
    requires s != []
    ensures Elements(s) == Elements(s[..|s| - 1]) + {s[|s| - 1]}
  {
    var n := |s| - 1;
    assert s == s[..n] + [s[n]];
  }

  lemma {:induction false} DistinctSize<T>(s: seq<T>)
    requires Distinct(s)
    ensures |Elements(s)| == |s|
  {
    if s == [] {
    } else {
      var n := |s| - 1;
      SplitLast(s);
      DistinctSize(s[..n]);
      assert s[n] !in Elements(s[..n]);
    }
  }

  lemma {:induction false} SubsetSize<T>(a: set<T>, b: set<T>)
    requires a <= b
    ensures |a| <= |b|
    ensures |a| == |b| ==> a == b
  {
    assert b == a + (b - a);
    if |a| == |b| {
      assert |b - a| == 0;
    }
  }

  lemma UnionSize<T>(a: set<T>, b: set<T>)
    requires forall x | x in a :: x !in b
    ensures |a + b| == |a| + |b|
  {
    assert a !! b;
  }

  ghost function Pick<T>(s: set<T>): (x: T)
    requires s != {}
    ensures x in s
  {
    var x :| x in s;
    x
  }

  predicate UpperBound(s: set<int>, m: int) {
    forall x | x in s :: x <= m
  }

  lemma {:induction false} MaxExists(s: set<int>)
    requires s != {}
    ensures exists m :: m in s && UpperBound(s, m)
    decreases |s|
  {
    var a := Pick(s);
    var rest := s - {a};
    assert s == rest + {a};
    if rest == {} {
      assert UpperBound(s, a);
    } else {
      MaxExists(rest);
      var n :| n in rest && UpperBound(rest, n);
      var k := if n > a then n else a;
      assert k in s && UpperBound(s, k);
    }
  }

  function Max(s: set<int>): (m: int)
    requires s != {}
    ensures m in s && UpperBound(s, m)
  {
    MaxExists(s);
    var m :| m in s && UpperBound(s, m);
    m
  }

  ghost predicate Descending(s: seq<int>) {
    forall i, j :: 0 <= i < j < |s| ==> s[i] > s[j]
  }

  ghost predicate Ascending(s: seq<int>) {
    forall i, j :: 0 <= i < j < |s| ==> s[i] < s[j]
  }

  /** The order an `ORDER BY ... DESC` query over a unique key returns. */
  function SortDescending(s: set<int>): (r: seq<int>)
    decreases |s|
  {
    if s == {} then [] else var m := Max(s); [m] + SortDescending(s - {m})
  }

  lemma BoundsRest(s: set<int>, m: int, rest: seq<int>)
    requires UpperBound(s, m) && Elements(rest) == s - {m}
    ensures forall x | x in Elements(rest) :: x < m
  {
  }

  lemma {:induction false} SortDescendingSorts(s: set<int>)
    ensures Elements(SortDescending(s)) == s
    ensures Descending(SortDescending(s))
    decreases |s|
  {
    if s == {} {
    } else {
      var m := Max(s);
      var rest := SortDescending(s - {m});
      SortDescendingSorts(s - {m});
      BoundsRest(s, m, rest);
      PutFirst(m, rest);
    }
  }

  lemma PutFirst(m: int, rest: seq<int>)
    requires Descending(rest) && forall x | x in Elements(rest) :: x < m
    ensures Descending([m] + rest)
    ensures Elements([m] + rest) == {m} + Elements(rest)
  {
    forall i | 0 <= i < |rest| ensures rest[i] < m {
      assert rest[i] in Elements(rest);
    }
  }

  /** The order an `ORDER BY ... ASC` query over a unique key returns. */
  function SortAscending(s: set<int>): (r: seq<int>)
    decreases |s|
  {
    if s == {} then [] else var m := Max(s); SortAscending(s - {m}) + [m]
  }

  lemma {:induction false} SortAscendingSorts(s: set<int>)
    ensures Elements(SortAscending(s)) == s
    ensures Ascending(SortAscending(s))
    decreases |s|
  {
    if s == {} {
    } else {
      var m := Max(s);
      var rest := SortAscending(s - {m});
      SortAscendingSorts(s - {m});
      BoundsRest(s, m, rest);
      PutLast(rest, m);
    }
  }

  lemma PutLast(rest: seq<int>, m: int)
    requires Ascending(rest) && forall x | x in Elements(rest) :: x < m
    ensures Ascending(rest + [m])
    ensures Elements(rest + [m]) == Elements(rest) + {m}
  {
    forall i | 0 <= i < |rest| ensures rest[i] < m {
      assert rest[i] in Elements(rest);
    }
  }

  ghost function Interval(low: int, high: int): (s: set<int>)
    ensures forall x :: x in s <==> low <= x <= high
    decreases high - low + 1
  {
    if high < low then {} else Interval(low, high - 1) + {high}
  }

  /** Sorting 1..n counts up. */
  lemma {:induction false} SortedInterval(n: nat)
    ensures SortAscending(Interval(1, n)) == seq(n, i => i + 1)
  {
    if n == 0 {
      assert Interval(1, n) == {};
    } else {
      var s := Interval(1, n);
      assert n in s;
      assert Max(s) == n;
      assert s - {n} == Interval(1, n - 1);
      SortedInterval(n - 1);
      assert seq(n, i => i + 1) == seq(n - 1, i => i + 1) + [n];
    }
  }

  lemma {:induction false} IntervalSize(n: nat)
    ensures |Interval(0, n - 1)| == n
  {
    if n > 0 {
      IntervalSize(n - 1);
    }
  }
}
