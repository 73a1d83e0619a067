/** The dropdown offered for each line of the substitution table: which
    teachers it lists, in which order, which entry starts selected, and the
    value kept once the `[S] ` marker is stripped. */
module Options {
  import opened Seqs
  import opened Text
  import opened Timetable
  import opened Proposals

  /** Marker put in front of a support teacher's name. */
  const TAG: string := "[S] "

  /** What the sort key looks for: the marker without its space. */
  const TAG_MARK: string := "[S]"

  /** "sostegni": teachers with a support row anywhere in the timetable,
      on any day and at any hour. */
  function Supporters(s: Schedule): (ds: seq<string>)
    ensures forall d :: d in ds <==> exists r :: r in s && IsSupport(r) && r.docente == d
  {
    Unique(Names(Filter(s, (r: Row) => IsSupport(r))))
  }

  /** How a teacher is shown: with the marker when a support teacher. */
  function Display(s: Schedule, d: string): string
  {
    if d in Supporters(s) then TAG + d else d
  }

  /** Teachers present at the editor's hour. An hour outside I..VI is a
      missing value in the categorical column and matches no row. */
  function PresentAt(s: Schedule, day: string, ora: string): seq<string>
  {
    if ora in HOURS then Present(s, day, ora) else []
  }

  /** Who may be offered for a line at hour `ora`. */
  ghost predicate Eligible(s: Schedule, absent: seq<string>, day: string, ora: string, d: string)
  {
    && ora in HOURS
    && (exists r :: r in s && At(r, day, ora) && r.docente == d)
    && d !in absent
    && !Starred(d)
  }

  /** The present teachers kept by the option builder: not absent, no `*`. */
  function Offered(s: Schedule, absent: seq<string>, day: string, ora: string): (ds: seq<string>)
    ensures forall d :: d in ds <==> Eligible(s, absent, day, ora, d)
  {
    Filter(PresentAt(s, day, ora), (d: string) => d !in absent && !Starred(d))
  }

  /** "opzioni_validi", before sorting. */
  function ValidOptions(s: Schedule, absent: seq<string>, day: string, ora: string): (opts: seq<string>)
    ensures forall o :: o in opts <==> exists d :: Eligible(s, absent, day, ora, d) && o == Display(s, d)
  {
    var offered := Offered(s, absent, day, ora);
    var opts := Map(offered, (d: string) => Display(s, d));
    forall o
      ensures o in opts <==> exists d :: Eligible(s, absent, day, ora, d) && o == Display(s, d)
    {
      MapMember(offered, (d: string) => Display(s, d), o);
    }
    opts
  }

  /** Sort group: marked entries (prefix `[S]`) first. */
  function Group(o: string): nat
  {
    if StartsWith(o, TAG_MARK) then 0 else 1
  }

  /** The sort key `(group, text)` compared as a Python tuple. */
  predicate KeyLessEq(a: string, b: string)
  {
    Group(a) < Group(b) || (Group(a) == Group(b) && LessEq(a, b))
  }

  lemma KeyTotal(a: string, b: string)
    ensures KeyLessEq(a, b) || KeyLessEq(b, a)
  {
    LessTotal(a, b);
  }

  lemma KeyTransitive(a: string, b: string, c: string)
    requires KeyLessEq(a, b) && KeyLessEq(b, c)
    ensures KeyLessEq(a, c)
  {
    if Group(a) == Group(b) == Group(c) && a != b && b != c {
      LessTransitive(a, b, c);
    }
  }

  ghost predicate SortedByKey(xs: seq<string>)
  {
    forall i, j :: 0 <= i < j < |xs| ==> KeyLessEq(xs[i], xs[j])
  }

  lemma PrependSortedByKey(a: string, rest: seq<string>)
    requires SortedByKey(rest)
    requires forall y :: y in rest ==> KeyLessEq(a, y)
    ensures SortedByKey([a] + rest)
  {
    var r := [a] + rest;
    forall i, j | 0 <= i < j < |r|
      ensures KeyLessEq(r[i], r[j])
    {
      if i == 0 {
        assert r[j] == rest[j - 1] && rest[j - 1] in rest;
      } else {
        assert r[i] == rest[i - 1] && r[j] == rest[j - 1];
      }
    }
  }

  /** The head of a key-sorted list is no greater than any element. */
  lemma HeadIsLeast(xs: seq<string>)
    requires SortedByKey(xs) && |xs| > 0
    ensures forall y :: y in xs ==> KeyLessEq(xs[0], y)
    ensures SortedByKey(xs[1..])
  {
    forall y | y in xs
      ensures KeyLessEq(xs[0], y)
    {
      var k :| 0 <= k < |xs| && xs[k] == y;
    }
  }

  function InsertOption(x: string, xs: seq<string>): (r: seq<string>)
    requires SortedByKey(xs)
    ensures forall y :: y in r <==> y in xs || y == x
    ensures SortedByKey(r)
    ensures multiset(r) == multiset(xs) + multiset{x}
  {
    if |xs| == 0 then [x]
    else
      HeadIsLeast(xs);
      if KeyLessEq(x, xs[0]) then
        assert forall y :: y in xs ==> KeyLessEq(x, y) by {
          forall y | y in xs
            ensures KeyLessEq(x, y)
          {
            KeyTransitive(x, xs[0], y);
          }
        }
        PrependSortedByKey(x, xs);
        [x] + xs
      else
        KeyTotal(x, xs[0]);
        var rest := InsertOption(x, xs[1..]);
        assert xs == [xs[0]] + xs[1..];
        PrependSortedByKey(xs[0], rest);
        [xs[0]] + rest
  }

  /** Python `sorted(options, key=...)`. */
  function SortOptions(xs: seq<string>): (r: seq<string>)
    ensures forall o :: o in r <==> o in xs
    ensures SortedByKey(r)
    ensures multiset(r) == multiset(xs)
  {
    if |xs| == 0 then []
    else
      assert xs == [xs[0]] + xs[1..];
      InsertOption(xs[0], SortOptions(xs[1..]))
  }

  /** What a key-sorted list says about markers and string order. */
  lemma SortedByKeyGroups(xs: seq<string>)
    requires SortedByKey(xs)
    ensures forall i, j :: 0 <= i < j < |xs| && StartsWith(xs[j], TAG_MARK) ==> StartsWith(xs[i], TAG_MARK)
    ensures forall i, j :: 0 <= i < j < |xs| && Group(xs[i]) == Group(xs[j]) ==> LessEq(xs[i], xs[j])
  {
  }

  /** A head put in front of a key-sorted permutation of `valid`. */
  lemma AfterHead(head: string, sorted: seq<string>, valid: seq<string>)
    requires SortedByKey(sorted)
    requires forall o :: o in sorted <==> o in valid
    ensures ([head] + sorted)[1..] == sorted
    ensures forall i :: 1 <= i < |sorted| + 1 ==> ([head] + sorted)[i] in valid
    ensures forall i, j :: 1 <= i < j < |sorted| + 1 && StartsWith(([head] + sorted)[j], TAG_MARK) ==> StartsWith(([head] + sorted)[i], TAG_MARK)
    ensures forall i, j :: 1 <= i < j < |sorted| + 1 && Group(([head] + sorted)[i]) == Group(([head] + sorted)[j]) ==> LessEq(([head] + sorted)[i], ([head] + sorted)[j])
  {
    var opts := [head] + sorted;
    SortedByKeyGroups(sorted);
    assert forall i :: 1 <= i < |opts| ==> opts[i] == sorted[i - 1];
  }

  /** "opzioni": "Nessuno" first, then the eligible teachers, marked ones
      before unmarked ones and each group in string order. */
  function OptionList(s: Schedule, absent: seq<string>, day: string, ora: string): (opts: seq<string>)
    ensures |opts| >= 1 && opts[0] == NESSUNO
    ensures forall i :: 1 <= i < |opts| ==> exists d :: Eligible(s, absent, day, ora, d) && opts[i] == Display(s, d)
    ensures forall d :: Eligible(s, absent, day, ora, d) ==> Display(s, d) in opts[1..]
    ensures forall i, j :: 1 <= i < j < |opts| && StartsWith(opts[j], TAG_MARK) ==> StartsWith(opts[i], TAG_MARK)
    ensures forall i, j :: 1 <= i < j < |opts| && Group(opts[i]) == Group(opts[j]) ==> LessEq(opts[i], opts[j])
    ensures multiset(opts[1..]) == multiset(ValidOptions(s, absent, day, ora))
  {
    var valid := ValidOptions(s, absent, day, ora);
    var opts := [NESSUNO] + SortOptions(valid);
    AfterHead(NESSUNO, SortOptions(valid), valid);
    opts
  }

  /** A marked name loses its marker, and a name without the marker
      anywhere in it is kept as it is. */
  lemma StripDisplay(s: Schedule, d: string)
    requires !Occurs(TAG, d)
    ensures RemoveAll(Display(s, d), TAG) == d
  {
    RemoveAllAbsent(d, TAG);
    if d in Supporters(s) {
      RemoveAllLeading(TAG, d);
    }
  }

  /** Position of the first occurrence of `x`, 0 when absent (the
      selectbox `index` argument). */
  function SelectIndex(opts: seq<string>, x: string): (i: nat)
    ensures |opts| > 0 ==> i < |opts|
    ensures x in opts ==> opts[i] == x
    ensures x !in opts ==> i == 0
    ensures x in opts ==> x !in opts[..i]
  {
    if |opts| == 0 || opts[0] == x || x !in opts then 0
    else
      var i := 1 + SelectIndex(opts[1..], x);
      assert opts[..i] == [opts[0]] + opts[1..][..i - 1];
      i
  }

  /** The value stored for a line when option `i` is picked: the option
      with every `[S] ` removed. */
  function Chosen(s: Schedule, absent: seq<string>, day: string, ora: string, i: nat): string
    requires i < |OptionList(s, absent, day, ora)|
  {
    RemoveAll(OptionList(s, absent, day, ora)[i], TAG)
  }

  /** No teacher name contains the marker. */
  ghost predicate NamesUnmarked(s: Schedule)
  {
    forall r :: r in s ==> !Occurs(TAG, r.docente)
  }

  /** Whatever is picked, the stored value is "Nessuno" or an eligible
      teacher's entry with the marker removed; when no name contains the
      marker, that is the eligible teacher's own name. */
  lemma ChosenIsEligible(s: Schedule, absent: seq<string>, day: string, ora: string, i: nat)
    requires i < |OptionList(s, absent, day, ora)|
    ensures var c := Chosen(s, absent, day, ora, i);
      c == NESSUNO || exists d :: Eligible(s, absent, day, ora, d) && c == RemoveAll(Display(s, d), TAG)
    ensures NamesUnmarked(s) ==>
      var c := Chosen(s, absent, day, ora, i);
      c == NESSUNO || Eligible(s, absent, day, ora, c)
  {
    var opts := OptionList(s, absent, day, ora);
    if i == 0 {
      NotOccursWithoutFirstChar(TAG, NESSUNO);
      RemoveAllAbsent(NESSUNO, TAG);
    } else {
      var d :| Eligible(s, absent, day, ora, d) && opts[i] == Display(s, d);
      var r :| r in s && At(r, day, ora) && r.docente == d;
      if NamesUnmarked(s) {
        StripDisplay(s, d);
      }
    }
  }

  /** The entry selected when the line is first shown: the proposal (with
      its marker if a support teacher) when offered, "Nessuno" otherwise.
      A tier 1 proposal of an absent teacher is therefore not kept. */
  function DefaultChoice(s: Schedule, absent: seq<string>, day: string, sub: Substitution): (c: string)
    ensures c == NESSUNO || exists d :: Eligible(s, absent, day, sub.ora, d) && c == RemoveAll(Display(s, d), TAG)
    ensures NamesUnmarked(s) ==> c == NESSUNO || Eligible(s, absent, day, sub.ora, c)
    ensures NamesUnmarked(s) && c in absent ==> c == NESSUNO
    ensures Display(s, sub.sostituto) in OptionList(s, absent, day, sub.ora) ==>
      c == RemoveAll(Display(s, sub.sostituto), TAG)
    ensures Display(s, sub.sostituto) !in OptionList(s, absent, day, sub.ora) ==> c == NESSUNO
  {
    var opts := OptionList(s, absent, day, sub.ora);
    var i := SelectIndex(opts, Display(s, sub.sostituto));
    ChosenIsEligible(s, absent, day, sub.ora, i);
    NotOccursWithoutFirstChar(TAG, NESSUNO);
    RemoveAllAbsent(NESSUNO, TAG);
    Chosen(s, absent, day, sub.ora, i)
  }

  /** An eligible proposal starts selected and is stored unchanged. */
  lemma DefaultChoiceKeepsEligible(s: Schedule, absent: seq<string>, day: string, sub: Substitution)
    requires !Occurs(TAG, sub.sostituto)
    requires Eligible(s, absent, day, sub.ora, sub.sostituto)
    ensures DefaultChoice(s, absent, day, sub) == sub.sostituto
  {
    var r :| r in s && At(r, day, sub.ora) && r.docente == sub.sostituto;
    StripDisplay(s, sub.sostituto);
  }

  /** A support teacher whose name itself starts with `[S] ` loses that
      part of the name when stored: here the stored value is the absent
      teacher "A". */
  lemma MarkedNameExample()
    ensures var s := [Row("A", "Lunedì", "I", "3B", "Lezione", false),
                      Row("[S] A", "Lunedì", "I", "2A", SOSTEGNO, false)];
      DefaultChoice(s, ["A"], "Lunedì", Substitution("I", "3B", "A", "[S] A")) == "A"
  {
    var s := [Row("A", "Lunedì", "I", "3B", "Lezione", false),
              Row("[S] A", "Lunedì", "I", "2A", SOSTEGNO, false)];
    var sub := Substitution("I", "3B", "A", "[S] A");
    assert IsSupport(s[1]) && s[1].docente == "[S] A";
    assert Display(s, "[S] A") == TAG + (TAG + "A");
    assert At(s[1], "Lunedì", "I");
    assert Eligible(s, ["A"], "Lunedì", "I", "[S] A");
    RemoveAllLeading(TAG, TAG + "A");
    RemoveAllLeading(TAG, "A");
    NotOccursWithoutFirstChar(TAG, "A");
    RemoveAllAbsent("A", TAG);
  }
}
