/**
  Finite sets of integers and their sizes, least elements, sorted enumerations, and the newest few of a
  set. Pruning keeps the newest minutes of the energy tracker and the newest days of the token ledger alike, so
  what is left after the oldest were dropped one by one is characterised here for both of them.
 */
module FiniteSets {

  lemma Pick<T>(s: set<T>) returns (x: T)
    requires s != {}
    ensures x in s
  {
    x :| x in s;
  }

  /** Some element of a set that still has one: the next step of a loop over it. */
  method TakeAny<T(==)>(s: set<T>) returns (x: T)
    requires s != {}
    ensures x in s
  {
    x :| x in s;
  }

  lemma {:induction false} SubsetSize<T>(a: set<T>, b: set<T>)
    requires a <= b
    ensures |a| <= |b|
    ensures |a| == |b| ==> a == b
  {
    if a == {} {
      if |b| == 0 { assert b == {}; }
    } else {
      var x := Pick(a);
      SubsetSize(a - {x}, b - {x});
      if |a| == |b| {
        assert a == (a - {x}) + {x} && b == (b - {x}) + {x};
      }
    }
  }

  lemma {:induction false} MinimumExists(s: set<int>) returns (least: int)
    requires s != {}
    ensures least in s && forall x :: x in s ==> least <= x
  {
    var y := Pick(s);
    if s == {y} {
      least := y;
    } else {
      var rest := MinimumExists(s - {y});
      least := if rest < y then rest else y;
      forall x | x in s ensures least <= x {
        if x != y { assert x in s - {y}; }
      }
    }
  }

  lemma MaximumExists(s: set<int>) returns (greatest: int)
    requires s != {}
    ensures greatest in s && forall x :: x in s ==> x <= greatest
  {
    var y := Pick(s);
    if s == {y} {
      greatest := y;
    } else {
      var rest := MaximumExists(s - {y});
      greatest := if rest > y then rest else y;
      forall x | x in s ensures x <= greatest {
        if x != y { assert x in s - {y}; }
      }
    }
  }

  lemma LeastExists(s: set<int>)
    requires s != {}
    ensures exists least :: least in s && forall x :: x in s ==> least <= x
  {
    var least := MinimumExists(s);
  }

  ghost function Least(s: set<int>): (least: int)
    requires s != {}
    ensures least in s && forall x :: x in s ==> least <= x
  {
    LeastExists(s);
    var least :| least in s && forall x :: x in s ==> least <= x;
    least
  }

  /** The elements of a finite set of integers, in increasing order. */
  ghost function Sorted(s: set<int>): seq<int>
    decreases |s|
  {
    if s == {} then [] else [Least(s)] + Sorted(s - {Least(s)})
  }

  predicate Increasing(xs: seq<int>) {
    forall i, j :: 0 <= i < j < |xs| ==> xs[i] < xs[j]
  }

  lemma {:induction false} SortedElements(s: set<int>)
    ensures Increasing(Sorted(s))
    ensures forall x :: x in Sorted(s) <==> x in s
    ensures |Sorted(s)| == |s|
    decreases |s|
  {
    if s != {} {
      var rest := s - {Least(s)};
      SortedElements(rest);
      PrependLeast(Least(s), Sorted(rest));
      assert s == {Least(s)} + rest;
    }
  }

  lemma PrependLeast(least: int, xs: seq<int>)
    requires Increasing(xs) && forall x :: x in xs ==> least < x
    ensures Increasing([least] + xs)
  {
    forall i, j | 0 <= i < j < |[least] + xs| ensures ([least] + xs)[i] < ([least] + xs)[j] {
      assert xs[j - 1] in xs;
    }
  }

  /** There is only one increasing enumeration of a set. */
  lemma {:induction false} IncreasingIsSorted(xs: seq<int>, s: set<int>)
    requires Increasing(xs) && s == (set x | x in xs)
    ensures xs == Sorted(s)
    decreases |xs|
  {
    if xs == [] {
      assert s == {};
    } else {
      FirstIsLeast(xs, s);
      RestOf(xs, s);
      IncreasingIsSorted(xs[1..], s - {Least(s)});
    }
  }

  lemma FirstIsLeast(xs: seq<int>, s: set<int>)
    requires Increasing(xs) && s == (set x | x in xs) && xs != []
    ensures s != {} && xs[0] == Least(s)
  {
    assert xs[0] in s;
    var i :| 0 <= i < |xs| && xs[i] == Least(s);
    assert xs[0] <= xs[i];
  }

  lemma RestOf(xs: seq<int>, s: set<int>)
    requires Increasing(xs) && s == (set x | x in xs) && xs != []
    ensures s - {xs[0]} == (set x | x in xs[1..])
  {
    forall x ensures x in xs[1..] <==> x in s - {xs[0]} {
      if x in xs[1..] {
        var j :| 0 <= j < |xs[1..]| && xs[1..][j] == x;
        assert xs[0] < xs[j + 1];
      }
    }
  }

  // --- The newest elements --------------------------------------------------------------------

  function Newer(starts: set<int>, m: int): set<int> {
    set n | n in starts && n > m
  }

  function Newest(starts: set<int>, maximum: nat): set<int> {
    set m | m in starts && |Newer(starts, m)| < maximum
  }

  /** `part` is what is left of `starts` after some of the oldest, each with enough newer ones, were dropped. */
  predicate UpperPart(part: set<int>, starts: set<int>, maximum: nat) {
    && part <= starts
    && (forall d, m :: d in starts && d !in part && m in part ==> d < m)
    && (forall d :: d in starts && d !in part ==> |Newer(starts, d)| >= maximum)
  }

  lemma UpperPartShrinks(part: set<int>, starts: set<int>, maximum: nat, oldest: int)
    requires UpperPart(part, starts, maximum) && |part| > maximum
    requires oldest in part && forall m :: m in part ==> oldest <= m
    ensures UpperPart(part - {oldest}, starts, maximum)
  {
    assert Newer(starts, oldest) == part - {oldest};
  }

  lemma UpperPartIsNewest(part: set<int>, starts: set<int>, maximum: nat)
    requires UpperPart(part, starts, maximum) && |part| <= maximum
    ensures part == Newest(starts, maximum)
  {
    forall m | m in part ensures |Newer(starts, m)| < maximum {
      assert Newer(starts, m) <= part - {m};
      SubsetSize(Newer(starts, m), part - {m});
    }
  }
}
