/** The substitute proposal: for every uncovered period, the teacher put
    forward before the administrator reviews the table. */
module Proposals {
  import opened Results
  import opened Seqs
  import opened Timetable

  /** One line of the substitution table: Ora, Classe, Assente, Sostituto. */
  datatype Substitution = Substitution(ora: string, classe: string, assente: string, sostituto: string)

  /** "presenti_ora": every teacher with a row at that day and hour, once
      each, in timetable order. */
  function Present(s: Schedule, day: string, hour: string): (ds: seq<string>)
    ensures Distinct(ds)
    ensures forall d :: d in ds <==> exists r :: r in s && At(r, day, hour) && r.docente == d
  {
    Unique(Names(Filter(s, (r: Row) => At(r, day, hour))))
  }

  /** "occupati_curr": teachers with a non-support row at that day and hour. */
  function Busy(s: Schedule, day: string, hour: string): (ds: seq<string>)
    ensures forall d :: d in ds <==> exists r :: r in s && At(r, day, hour) && !IsSupport(r) && r.docente == d
  {
    Unique(Names(Filter(s, (r: Row) => At(r, day, hour) && !IsSupport(r))))
  }

  /** "liberi": present that hour, not busy with a lesson, not absent and
      without `*`, in timetable order. */
  function Free(s: Schedule, absent: seq<string>, day: string, hour: string): seq<string>
  {
    var busy := Busy(s, day, hour);
    Filter(Present(s, day, hour), (d: string) => d !in busy && d !in absent && !Starred(d))
  }

  /** What "free" means for a teacher at a day and hour, stated on the
      timetable directly: some row there, every row there a support one,
      not absent, no `*` in the name. */
  ghost predicate IsFree(s: Schedule, absent: seq<string>, day: string, hour: string, d: string)
  {
    && (exists r :: r in s && At(r, day, hour) && r.docente == d)
    && (forall r :: r in s && At(r, day, hour) && r.docente == d ==> IsSupport(r))
    && d !in absent
    && !Starred(d)
  }

  lemma FreeMeansFree(s: Schedule, absent: seq<string>, day: string, hour: string, d: string)
    ensures d in Free(s, absent, day, hour) <==> IsFree(s, absent, day, hour, d)
  {
  }

  /** Tier 1 rows: support at the same day, hour and class, no `*`. */
  predicate SameClassSupport(r: Row, day: string, hour: string, classe: string)
  {
    At(r, day, hour) && IsSupport(r) && r.classe == classe && !Starred(r.docente)
  }

  /** Tier 2 rows: support at the same day and hour, no `*`. */
  predicate HourSupport(r: Row, day: string, hour: string)
  {
    At(r, day, hour) && IsSupport(r) && !Starred(r.docente)
  }

  /** The teacher proposed for one uncovered row `slot` on `day`. */
  function Proposal(s: Schedule, absent: seq<string>, day: string, slot: Row): (d: string)
    ensures d == NESSUNO || exists r :: r in s && At(r, day, slot.ora) && IsSupport(r) && r.docente == d
    ensures d == NESSUNO || !Starred(d)
  {
    var prioritari := Filter(s, (r: Row) => SameClassSupport(r, day, slot.ora, slot.classe));
    if |prioritari| > 0 then
      assert prioritari[0] in prioritari;
      prioritari[0].docente
    else
      var free := Free(s, absent, day, slot.ora);
      var disponibili := Unique(Names(Filter(s, (r: Row) => HourSupport(r, day, slot.ora))));
      var candidati := Filter(disponibili, (d: string) => d in free);
      if |candidati| > 0 then
        assert candidati[0] in candidati;
        candidati[0]
      else
        NESSUNO
  }

  /** Tier 1: the first same-class support row decides, whoever else is
      free and whether or not that teacher is absent. */
  lemma ProposalPrefersSameClassSupport(s: Schedule, absent: seq<string>, day: string, slot: Row, k: int)
    requires 0 <= k < |s| && SameClassSupport(s[k], day, slot.ora, slot.classe)
    requires forall j :: 0 <= j < k ==> !SameClassSupport(s[j], day, slot.ora, slot.classe)
    ensures Proposal(s, absent, day, slot) == s[k].docente
  {
    var p := (r: Row) => SameClassSupport(r, day, slot.ora, slot.classe);
    assert IsFirstAt(s, p, k);
    FirstAt(s, p, k);
    FilterHead(s, p);
  }

  /** A tier 2 candidate: a support row at the hour whose teacher is free. */
  ghost predicate FreeSupport(s: Schedule, absent: seq<string>, day: string, hour: string, r: Row)
  {
    HourSupport(r, day, hour) && IsFree(s, absent, day, hour, r.docente)
  }

  /** A tier 2 row as the code tests it: support at the hour, no `*`,
      teacher among "liberi". */
  predicate ListedFreeSupport(s: Schedule, absent: seq<string>, day: string, hour: string, r: Row)
  {
    HourSupport(r, day, hour) && r.docente in Free(s, absent, day, hour)
  }

  /** Without a same-class support row the proposal is the teacher of the
      first row passing the tier 2 test, or "Nessuno". */
  lemma {:induction false} ProposalIsFirstListed(s: Schedule, absent: seq<string>, day: string, slot: Row)
    requires forall r :: r in s ==> !SameClassSupport(r, day, slot.ora, slot.classe)
    ensures var first := First(s, (r: Row) => ListedFreeSupport(s, absent, day, slot.ora, r));
      Proposal(s, absent, day, slot) == if first.Some? then first.value.docente else NESSUNO
  {
    var hour := slot.ora;
    var free := Free(s, absent, day, hour);
    var q := (r: Row) => HourSupport(r, day, hour);
    var inFree := (d: string) => d in free;
    var name := (r: Row) => r.docente;
    var nameFree := (r: Row) => r.docente in free;
    var cand := (r: Row) => ListedFreeSupport(s, absent, day, slot.ora, r);
    FilterNone(s, (r: Row) => SameClassSupport(r, day, slot.ora, slot.classe));
    var supporters := Filter(s, q);
    FilterHead(Unique(Names(supporters)), inFree);
    FirstOfUnique(Names(supporters), inFree);
    FirstOfMap(supporters, name, inFree, nameFree);
    FirstOfFilter(s, q, nameFree, cand);
  }

  /** Tier 2 and the fallback: without a same-class support row, the proposal is the
      teacher of the earliest support row at that hour whose teacher is
      free, and "Nessuno" when there is none. */
  lemma ProposalWithoutSameClassSupport(s: Schedule, absent: seq<string>, day: string, slot: Row)
    requires forall r :: r in s ==> !SameClassSupport(r, day, slot.ora, slot.classe)
    ensures var d := Proposal(s, absent, day, slot);
      || (exists k :: 0 <= k < |s| && FreeSupport(s, absent, day, slot.ora, s[k]) && d == s[k].docente
            && forall j :: 0 <= j < k ==> !FreeSupport(s, absent, day, slot.ora, s[j]))
      || (d == NESSUNO && forall k :: 0 <= k < |s| ==> !FreeSupport(s, absent, day, slot.ora, s[k]))
  {
    var hour := slot.ora;
    var cand := (r: Row) => ListedFreeSupport(s, absent, day, slot.ora, r);
    ProposalIsFirstListed(s, absent, day, slot);
    FirstIsEarliest(s, cand);
    forall r | r in s
      ensures ListedFreeSupport(s, absent, day, hour, r) <==> FreeSupport(s, absent, day, hour, r)
    {
      FreeMeansFree(s, absent, day, hour, r.docente);
    }
    if First(s, cand).Some? {
      var k :| IsFirstAt(s, cand, k) && s[k] == First(s, cand).value;
      assert s[k] in s;
      assert forall j :: 0 <= j < k ==> s[j] in s;
    } else {
      assert forall k :: 0 <= k < |s| ==> s[k] in s;
    }
  }

  /** The proposals, one per uncovered row, in timetable order. */
  function Propose(s: Schedule, absent: seq<string>, day: string): (subs: seq<Substitution>)
    ensures |subs| == |Uncovered(s, absent, day)|
    ensures forall i :: 0 <= i < |subs| ==>
      var u := Uncovered(s, absent, day)[i];
      subs[i] == Substitution(u.ora, u.classe, u.docente, Proposal(s, absent, day, u))
    ensures forall x :: x in subs ==>
      x.assente in absent && exists r :: r in s && r.docente == x.assente && r.giorno == day && r.ora == x.ora && r.classe == x.classe
  {
    var u := Uncovered(s, absent, day);
    var subs := Map(u, (r: Row) => Substitution(r.ora, r.classe, r.docente, Proposal(s, absent, day, r)));
    assert forall i :: 0 <= i < |u| ==> u[i] in u;
    subs
  }

  /** As written, tier 1 does not look at absences: an absent support
      teacher is proposed for their own lesson. */
  lemma SelfProposalExample()
    ensures var s := [Row("A", "Lunedì", "I", "3B", "Lezione", false), Row("S", "Lunedì", "I", "3B", SOSTEGNO, false)];
      Propose(s, ["A", "S"], "Lunedì") == [Substitution("I", "3B", "A", "S"), Substitution("I", "3B", "S", "S")]
  {
    var s := [Row("A", "Lunedì", "I", "3B", "Lezione", false), Row("S", "Lunedì", "I", "3B", SOSTEGNO, false)];
    assert Uncovered(s, ["A", "S"], "Lunedì") == s;
    ProposalPrefersSameClassSupport(s, ["A", "S"], "Lunedì", s[0], 1);
    ProposalPrefersSameClassSupport(s, ["A", "S"], "Lunedì", s[1], 1);
  }
}
