/** Sequence operations that mirror the pandas idioms of the application:
    boolean-mask filtering, `unique()` (first-occurrence order) and taking
    the first element of a filtered column (`iloc[0]`). */
module Seqs {
  import opened Results

  /** Keeps the elements satisfying `p`, in their original order. */
  function Filter<T(!new)>(xs: seq<T>, p: T -> bool): (r: seq<T>)
    ensures |r| <= |xs|
    ensures forall x :: x in r <==> x in xs && p(x)
  {
    if |xs| == 0 then [] else (if p(xs[0]) then [xs[0]] else []) + Filter(xs[1..], p)
  }

  /** Filtering distributes over concatenation, so it keeps the order. */
  lemma {:induction false} FilterConcat<T(!new)>(a: seq<T>, b: seq<T>, p: T -> bool)
    ensures Filter(a + b, p) == Filter(a, p) + Filter(b, p)
  {
    if |a| == 0 {
      assert a + b == b;
    } else {
      assert (a + b)[1..] == a[1..] + b;
      FilterConcat(a[1..], b, p);
    }
  }

  /** The number of elements `Filter` drops is the number failing `p`. */
  lemma {:induction false} FilterSplitsLength<T(!new)>(xs: seq<T>, p: T -> bool, notP: T -> bool)
    requires forall x :: notP(x) == !p(x)
    ensures |Filter(xs, p)| + |Filter(xs, notP)| == |xs|
  {
    if |xs| > 0 {
      FilterSplitsLength(xs[1..], p, notP);
    }
  }

  /** Nothing passes the test, nothing is kept. */
  lemma {:induction false} FilterNone<T(!new)>(xs: seq<T>, p: T -> bool)
    requires forall x :: x in xs ==> !p(x)
    ensures Filter(xs, p) == []
  {
    if |xs| > 0 {
      FilterNone(xs[1..], p);
    }
  }

  /** Everything passes the test, everything is kept. */
  lemma {:induction false} FilterAll<T(!new)>(xs: seq<T>, p: T -> bool)
    requires forall x :: x in xs ==> p(x)
    ensures Filter(xs, p) == xs
  {
    if |xs| > 0 {
      FilterAll(xs[1..], p);
      assert xs == [xs[0]] + xs[1..];
    }
  }

  function Map<T, U>(xs: seq<T>, f: T -> U): (r: seq<U>)
    ensures |r| == |xs|
    ensures forall i :: 0 <= i < |xs| ==> r[i] == f(xs[i])
  {
    if |xs| == 0 then [] else [f(xs[0])] + Map(xs[1..], f)
  }

  lemma MapMember<T, U>(xs: seq<T>, f: T -> U, y: U)
    ensures y in Map(xs, f) <==> exists x :: x in xs && y == f(x)
  {
    var r := Map(xs, f);
    if y in r {
      var i :| 0 <= i < |r| && r[i] == y;
      assert xs[i] in xs;
    }
    if exists x :: x in xs && y == f(x) {
      var x :| x in xs && y == f(x);
      var i :| 0 <= i < |xs| && xs[i] == x;
      assert r[i] == y;
    }
  }

  /** The first element satisfying `p`, if any. */
  function First<T>(xs: seq<T>, p: T -> bool): (r: Option<T>)
    ensures r.Some? ==> r.value in xs && p(r.value)
    ensures r.None? <==> forall x :: x in xs ==> !p(x)
  {
    if |xs| == 0 then None else if p(xs[0]) then Some(xs[0]) else First(xs[1..], p)
  }

  /** `xs[k]` is the earliest element satisfying `p`. */
  ghost predicate IsFirstAt<T>(xs: seq<T>, p: T -> bool, k: int)
  {
    0 <= k < |xs| && p(xs[k]) && forall j :: 0 <= j < k ==> !p(xs[j])
  }

  /** `First` returns the element at the earliest index satisfying `p`. */
  lemma {:induction false} FirstIsEarliest<T>(xs: seq<T>, p: T -> bool)
    ensures First(xs, p).Some? ==> exists k :: IsFirstAt(xs, p, k) && xs[k] == First(xs, p).value
  {
    if |xs| > 0 && !p(xs[0]) {
      FirstIsEarliest(xs[1..], p);
      if First(xs, p).Some? {
        var k :| IsFirstAt(xs[1..], p, k) && xs[1..][k] == First(xs, p).value;
        assert IsFirstAt(xs, p, k + 1);
      }
    } else if |xs| > 0 {
      assert IsFirstAt(xs, p, 0);
    }
  }

  /** The head of a filtered sequence is the first matching element. */
  lemma {:induction false} FilterHead<T(!new)>(xs: seq<T>, p: T -> bool)
    ensures |Filter(xs, p)| > 0 <==> First(xs, p).Some?
    ensures |Filter(xs, p)| > 0 ==> Filter(xs, p)[0] == First(xs, p).value
  {
    if |xs| > 0 && !p(xs[0]) {
      FilterHead(xs[1..], p);
    }
  }

  /** Looking for the first match after a filter is looking for the first
      element passing both tests (`both` is their conjunction). */
  lemma {:induction false} FirstOfFilter<T(!new)>(xs: seq<T>, q: T -> bool, p: T -> bool, both: T -> bool)
    requires forall x :: both(x) <==> q(x) && p(x)
    ensures First(Filter(xs, q), p) == First(xs, both)
  {
    if |xs| > 0 {
      FirstOfFilter(xs[1..], q, p, both);
      var rest := Filter(xs[1..], q);
      if q(xs[0]) {
        assert Filter(xs, q) == [xs[0]] + rest;
        if p(xs[0]) {
          assert First(Filter(xs, q), p) == Some(xs[0]);
        } else {
          assert First(Filter(xs, q), p) == First(rest, p);
        }
      } else {
        assert Filter(xs, q) == rest;
      }
    }
  }

  /** Looking for the first match among images is looking for the first
      element whose image matches (`pf` is `p` after `f`). */
  lemma {:induction false} FirstOfMap<T, U>(xs: seq<T>, f: T -> U, p: U -> bool, pf: T -> bool)
    requires forall x :: pf(x) == p(f(x))
    ensures First(Map(xs, f), p).Some? <==> First(xs, pf).Some?
    ensures First(Map(xs, f), p).Some? ==> First(Map(xs, f), p).value == f(First(xs, pf).value)
  {
    if |xs| > 0 {
      assert Map(xs, f)[1..] == Map(xs[1..], f);
      FirstOfMap(xs[1..], f, p, pf);
    }
  }

  /** The earliest element satisfying `p` is the one `First` returns. */
  lemma {:induction false} FirstAt<T>(xs: seq<T>, p: T -> bool, k: int)
    requires IsFirstAt(xs, p, k)
    ensures First(xs, p) == Some(xs[k])
  {
    if k > 0 {
      assert IsFirstAt(xs[1..], p, k - 1);
      FirstAt(xs[1..], p, k - 1);
    }
  }

  ghost predicate Distinct<T>(xs: seq<T>)
  {
    forall i, j :: 0 <= i < j < |xs| ==> xs[i] != xs[j]
  }

  lemma {:induction false} FilterKeepsDistinct<T(!new)>(xs: seq<T>, p: T -> bool)
    requires Distinct(xs)
    ensures Distinct(Filter(xs, p))
  {
    if |xs| > 0 {
      FilterKeepsDistinct(xs[1..], p);
      assert xs[0] !in xs[1..];
    }
  }

  /** pandas `unique()` over the elements not already in `seen`: each value
      once, in order of first occurrence. */
  function UniqueExcept<T(==,!new)>(xs: seq<T>, seen: set<T>): (r: seq<T>)
    ensures forall x :: x in r <==> x in xs && x !in seen
    ensures Distinct(r)
  {
    if |xs| == 0 then []
    else if xs[0] in seen then UniqueExcept(xs[1..], seen)
    else [xs[0]] + UniqueExcept(xs[1..], seen + {xs[0]})
  }

  /** pandas `Series.unique()`. */
  function Unique<T(==,!new)>(xs: seq<T>): (r: seq<T>)
    ensures forall x :: x in r <==> x in xs
    ensures Distinct(r)
  {
    UniqueExcept(xs, {})
  }

  /** Removing repeats does not change which value is met first. */
  lemma {:induction false} FirstOfUniqueExcept<T(!new)>(xs: seq<T>, seen: set<T>, p: T -> bool)
    requires forall x :: x in seen ==> !p(x)
    ensures First(UniqueExcept(xs, seen), p) == First(xs, p)
  {
    if |xs| > 0 {
      if xs[0] in seen {
        FirstOfUniqueExcept(xs[1..], seen, p);
      } else if !p(xs[0]) {
        FirstOfUniqueExcept(xs[1..], seen + {xs[0]}, p);
        assert ([xs[0]] + UniqueExcept(xs[1..], seen + {xs[0]}))[1..] == UniqueExcept(xs[1..], seen + {xs[0]});
      }
    }
  }

  lemma FirstOfUnique<T(!new)>(xs: seq<T>, p: T -> bool)
    ensures First(Unique(xs), p) == First(xs, p)
  {
    FirstOfUniqueExcept(xs, {}, p);
  }

  /** Python `list.count`. */
  function Count<T(==)>(xs: seq<T>, x: T): (n: nat)
    ensures n <= |xs|
    ensures n > 0 <==> x in xs
  {
    if |xs| == 0 then 0 else (if xs[0] == x then 1 else 0) + Count(xs[1..], x)
  }

  lemma {:induction false} CountConcat<T>(a: seq<T>, b: seq<T>, x: T)
    ensures Count(a + b, x) == Count(a, x) + Count(b, x)
  {
    if |a| == 0 {
      assert a + b == b;
    } else {
      assert (a + b)[1..] == a[1..] + b;
      CountConcat(a[1..], b, x);
    }
  }

  /** A value is counted twice exactly when it sits at two distinct indices. */
  lemma {:induction false} CountTwice<T>(xs: seq<T>, x: T)
    ensures Count(xs, x) >= 2 <==> exists i, j :: 0 <= i < j < |xs| && xs[i] == x && xs[j] == x
  {
    if |xs| > 0 {
      CountTwice(xs[1..], x);
      if Count(xs, x) >= 2 {
        if xs[0] == x {
          var j :| 0 <= j < |xs[1..]| && xs[1..][j] == x;
          assert xs[0] == x && xs[j + 1] == x;
        } else {
          var i, j :| 0 <= i < j < |xs[1..]| && xs[1..][i] == x && xs[1..][j] == x;
          assert xs[i + 1] == x && xs[j + 1] == x;
        }
      }
      if exists i, j :: 0 <= i < j < |xs| && xs[i] == x && xs[j] == x {
        var i, j :| 0 <= i < j < |xs| && xs[i] == x && xs[j] == x;
        if i == 0 {
          assert xs[1..][j - 1] == x;
        } else {
          assert xs[1..][i - 1] == x && xs[1..][j - 1] == x;
        }
      }
    }
  }
}
