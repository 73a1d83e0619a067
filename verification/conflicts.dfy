/** The check run before the reviewed table is confirmed: within one
    period, no substitute may be given two classes. */
module Conflicts {
  import opened Seqs
  import opened Timetable
  import opened Proposals

  /** A period and the substitutes assigned more than once in it. */
  datatype Conflict = Conflict(ora: string, docenti: set<string>)

  /** "sostituti": the substitutes other than "Nessuno" on the lines of
      period `ora`, in table order. */
  function Assigned(table: seq<Substitution>, ora: string): seq<string>
  {
    if |table| == 0 then []
    else
      (if table[0].ora == ora && table[0].sostituto != NESSUNO then [table[0].sostituto] else [])
      + Assigned(table[1..], ora)
  }

  /** `set(duplicati)`: the values occurring more than once, that is, at
      two distinct positions. */
  function Duplicates(xs: seq<string>): (dup: set<string>)
    ensures forall d :: d in dup <==> exists i, j :: 0 <= i < j < |xs| && xs[i] == d && xs[j] == d
  {
    var dup := set d | d in xs && Count(xs, d) > 1;
    forall d
      ensures d in dup <==> exists i, j :: 0 <= i < j < |xs| && xs[i] == d && xs[j] == d
    {
      CountTwice(xs, d);
    }
    dup
  }

  /** The conflicts over the given periods, in the order of `hours`. */
  function ConflictsOver(table: seq<Substitution>, hours: seq<string>): (cs: seq<Conflict>)
    ensures forall c :: c in cs ==> c.ora in hours && c.docenti == Duplicates(Assigned(table, c.ora)) && c.docenti != {}
    ensures forall o :: o in hours && Duplicates(Assigned(table, o)) != {} ==> exists c :: c in cs && c.ora == o
    ensures Distinct(hours) ==> forall i, j :: 0 <= i < j < |cs| ==> cs[i].ora != cs[j].ora
  {
    if |hours| == 0 then []
    else
      var dup := Duplicates(Assigned(table, hours[0]));
      var rest := ConflictsOver(table, hours[1..]);
      assert Distinct(hours) ==> hours[0] !in hours[1..];
      if dup != {} then [Conflict(hours[0], dup)] + rest else rest
  }

  /** The lines' periods, each once in table order; a period outside
      I..VI is a missing value and matches no line. */
  function TableHours(table: seq<Substitution>): (hs: seq<string>)
    ensures Distinct(hs)
    ensures forall o :: o in hs <==> o in HOURS && exists x :: x in table && x.ora == o
  {
    var hs := Filter(Unique(Map(table, (x: Substitution) => x.ora)), (o: string) => o in HOURS);
    forall o
      ensures o in hs <==> o in HOURS && exists x :: x in table && x.ora == o
    {
      MapMember(table, (x: Substitution) => x.ora, o);
    }
    FilterKeepsDistinct(Unique(Map(table, (x: Substitution) => x.ora)), (o: string) => o in HOURS);
    hs
  }

  /** The same substitute sits on two lines of period `ora`. */
  ghost predicate DoubleBooked(table: seq<Substitution>, ora: string, d: string)
  {
    && d != NESSUNO
    && exists i, j ::
         && 0 <= i < j < |table|
         && table[i].ora == ora && table[j].ora == ora
         && table[i].sostituto == d && table[j].sostituto == d
  }

  /** The (period, substitute) pair of every line. */
  function Slots(table: seq<Substitution>): seq<(string, string)>
  {
    Map(table, (x: Substitution) => (x.ora, x.sostituto))
  }

  lemma {:induction false} AssignedCount(table: seq<Substitution>, ora: string, d: string)
    requires d != NESSUNO
    ensures Count(Assigned(table, ora), d) == Count(Slots(table), (ora, d))
  {
    if |table| > 0 {
      AssignedCount(table[1..], ora, d);
      assert Slots(table)[1..] == Slots(table[1..]);
      var head := if table[0].ora == ora && table[0].sostituto != NESSUNO then [table[0].sostituto] else [];
      CountConcat(head, Assigned(table[1..], ora), d);
    }
  }

  /** A substitute is reported for a period exactly when double-booked. */
  lemma DuplicatesAreDoubleBookings(table: seq<Substitution>, ora: string, d: string)
    ensures d in Duplicates(Assigned(table, ora)) <==> DoubleBooked(table, ora, d)
  {
    if d != NESSUNO {
      AssignedCount(table, ora, d);
      CountTwice(Slots(table), (ora, d));
    } else {
      NessunoNeverAssigned(table, ora);
    }
  }

  lemma {:induction false} NessunoNeverAssigned(table: seq<Substitution>, ora: string)
    ensures NESSUNO !in Assigned(table, ora)
  {
    if |table| > 0 {
      NessunoNeverAssigned(table[1..], ora);
    }
  }

  /** "conflitti": for every period of the table, in order, the substitutes
      other than "Nessuno" assigned to more than one of its lines. */
  function CheckConflicts(table: seq<Substitution>): (cs: seq<Conflict>)
    ensures forall o :: (exists c :: c in cs && c.ora == o) <==> o in HOURS && exists d :: DoubleBooked(table, o, d)
    ensures forall c, d :: c in cs ==> (d in c.docenti <==> DoubleBooked(table, c.ora, d))
    ensures forall i, j :: 0 <= i < j < |cs| ==> cs[i].ora != cs[j].ora
  {
    var hours := TableHours(table);
    var cs := ConflictsOver(table, hours);
    forall o, d
      ensures d in Duplicates(Assigned(table, o)) <==> DoubleBooked(table, o, d)
    {
      DuplicatesAreDoubleBookings(table, o, d);
    }
    forall o | o in HOURS && exists d :: DoubleBooked(table, o, d)
      ensures o in hours
    {
      var d :| DoubleBooked(table, o, d);
      var i, j :| 0 <= i < j < |table| && table[i].ora == o && table[j].ora == o
        && table[i].sostituto == d && table[j].sostituto == d;
      assert table[i] in table;
    }
    cs
  }
}
