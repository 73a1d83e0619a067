/** Ordering the substitution table by period, I < II < ... < VI, with
    any other hour value (a missing value once made categorical) last. */
module Hours {
  import opened Timetable
  import opened Proposals

  /** Position of the hour in I..VI; anything else ranks after VI. */
  function HourRank(ora: string): (k: nat)
    ensures k <= |HOURS|
    ensures k < |HOURS| <==> ora in HOURS
    ensures k < |HOURS| ==> HOURS[k] == ora
  {
    if ora == "I" then 0
    else if ora == "II" then 1
    else if ora == "III" then 2
    else if ora == "IV" then 3
    else if ora == "V" then 4
    else if ora == "VI" then 5
    else 6
  }

  ghost predicate SortedByHour(xs: seq<Substitution>)
  {
    forall i, j :: 0 <= i < j < |xs| ==> HourRank(xs[i].ora) <= HourRank(xs[j].ora)
  }

  lemma PrependSorted(a: Substitution, rest: seq<Substitution>)
    requires SortedByHour(rest)
    requires forall y :: y in rest ==> HourRank(a.ora) <= HourRank(y.ora)
    ensures SortedByHour([a] + rest)
  {
    var r := [a] + rest;
    forall i, j | 0 <= i < j < |r|
      ensures HourRank(r[i].ora) <= HourRank(r[j].ora)
    {
      if i == 0 {
        assert r[j] == rest[j - 1] && rest[j - 1] in rest;
      } else {
        assert r[i] == rest[i - 1] && r[j] == rest[j - 1];
      }
    }
  }

  /** The head of a sorted table is no later than any of its lines. */
  lemma HeadIsEarliest(xs: seq<Substitution>)
    requires SortedByHour(xs) && |xs| > 0
    ensures forall y :: y in xs ==> HourRank(xs[0].ora) <= HourRank(y.ora)
    ensures SortedByHour(xs[1..])
  {
    forall y | y in xs
      ensures HourRank(xs[0].ora) <= HourRank(y.ora)
    {
      var k :| 0 <= k < |xs| && xs[k] == y;
    }
  }

  /** Puts `x` before the first line of a later or equal period. */
  function Insert(x: Substitution, xs: seq<Substitution>): (r: seq<Substitution>)
    requires SortedByHour(xs)
    ensures forall y :: y in r <==> y in xs || y == x
    ensures SortedByHour(r)
    ensures multiset(r) == multiset(xs) + multiset{x}
  {
    if |xs| == 0 then [x]
    else
      HeadIsEarliest(xs);
      if HourRank(x.ora) <= HourRank(xs[0].ora) then
        PrependSorted(x, xs);
        [x] + xs
      else
        var rest := Insert(x, xs[1..]);
        assert xs == [xs[0]] + xs[1..];
        PrependSorted(xs[0], rest);
        [xs[0]] + rest
  }

  /** `sort_values("Ora")` on the categorical hour column: the same lines,
      in period order. */
  function SortByHour(xs: seq<Substitution>): (r: seq<Substitution>)
    ensures SortedByHour(r)
    ensures multiset(r) == multiset(xs)
  {
    if |xs| == 0 then []
    else
      assert xs == [xs[0]] + xs[1..];
      Insert(xs[0], SortByHour(xs[1..]))
  }

  /** The table shown for review: the proposals for the uncovered rows of
      the day named in English, sorted by period. */
  function DraftTable(s: Schedule, absent: seq<string>, english: string): (t: seq<Substitution>)
    ensures SortedByHour(t)
    ensures multiset(t) == multiset(Propose(s, absent, ItalianDay(english)))
    ensures |t| == |Uncovered(s, absent, ItalianDay(english))|
  {
    var t := SortByHour(Propose(s, absent, ItalianDay(english)));
    assert |t| == |multiset(t)|;
    t
  }
}
