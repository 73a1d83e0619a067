/** The weekly timetable ("orario") and the selection of the periods left
    uncovered by a day of absences. */
module Timetable {
  import opened Seqs

  /** Lesson type of a support ("sostegno") teacher. */
  const SOSTEGNO: string := "Sostegno"

  /** The placeholder meaning "no substitute". */
  const NESSUNO: string := "Nessuno"

  /** The six teaching periods, in day order. */
  const HOURS: seq<string> := ["I", "II", "III", "IV", "V", "VI"]

  /** The weekdays a lesson can be scheduled on. */
  const SCHOOL_DAYS: seq<string> := ["Lunedì", "Martedì", "Mercoledì", "Giovedì", "Venerdì"]

  const ENGLISH_DAYS: seq<string> := ["Monday", "Tuesday", "Wednesday", "Thursday", "Friday", "Saturday", "Sunday"]
  const ITALIAN_DAYS: seq<string> := ["Lunedì", "Martedì", "Mercoledì", "Giovedì", "Venerdì", "Sabato", "Domenica"]

  /** One timetable row: columns Docente, Giorno, Ora, Classe, Tipo, Escludi. */
  datatype Row = Row(docente: string, giorno: string, ora: string, classe: string, tipo: string, escludi: bool)

  type Schedule = seq<Row>

  predicate At(r: Row, day: string, hour: string)
  {
    r.giorno == day && r.ora == hour
  }

  predicate IsSupport(r: Row)
  {
    r.tipo == SOSTEGNO
  }

  /** Teachers whose name carries a `*` are never proposed nor offered. */
  predicate Starred(name: string)
  {
    '*' in name
  }

  /** The Docente column. */
  function Names(rows: seq<Row>): (names: seq<string>)
    ensures |names| == |rows|
    ensures forall d :: d in names <==> exists r :: r in rows && r.docente == d
  {
    assert forall i :: 0 <= i < |rows| ==> rows[i] in rows;
    Map(rows, (r: Row) => r.docente)
  }

  /** The English weekday name (`strftime("%A")`) translated to Italian;
      a name outside the table passes through unchanged. */
  function ItalianDay(english: string): (day: string)
    ensures forall k :: 0 <= k < |ENGLISH_DAYS| && ENGLISH_DAYS[k] == english ==> day == ITALIAN_DAYS[k]
    ensures english !in ENGLISH_DAYS ==> day == english
  {
    var translation := map[
      "Monday" := "Lunedì",
      "Tuesday" := "Martedì",
      "Wednesday" := "Mercoledì",
      "Thursday" := "Giovedì",
      "Friday" := "Venerdì",
      "Saturday" := "Sabato",
      "Sunday" := "Domenica"];
    if english in translation then translation[english] else english
  }

  /** A row left uncovered: its teacher is absent and it falls on the day. */
  predicate IsUncovered(r: Row, absent: seq<string>, day: string)
  {
    r.docente in absent && r.giorno == day
  }

  /** The "ore scoperte": the rows of absent teachers on the given day,
      in timetable order. */
  function Uncovered(s: Schedule, absent: seq<string>, day: string): (u: Schedule)
    ensures |u| <= |s|
    ensures forall r :: r in u <==> r in s && r.docente in absent && r.giorno == day
  {
    Filter(s, (r: Row) => IsUncovered(r, absent, day))
  }

  /** The selection keeps timetable order: it splits along any split of
      the timetable. */
  lemma UncoveredConcat(a: Schedule, b: Schedule, absent: seq<string>, day: string)
    ensures Uncovered(a + b, absent, day) == Uncovered(a, absent, day) + Uncovered(b, absent, day)
  {
    FilterConcat(a, b, (r: Row) => IsUncovered(r, absent, day));
  }

  /** A single row is kept exactly when its teacher is absent on that day;
      with `UncoveredConcat` this fixes the selection row by row. */
  lemma UncoveredSingle(r: Row, absent: seq<string>, day: string)
    ensures Uncovered([r], absent, day) == (if r.docente in absent && r.giorno == day then [r] else [])
  {
    assert [r][1..] == [];
  }

  /** No teacher is absent, no period is uncovered. */
  lemma UncoveredNobodyAbsent(s: Schedule, day: string)
    ensures Uncovered(s, [], day) == []
  {
    FilterNone(s, (r: Row) => IsUncovered(r, [], day));
  }

  /** On Saturday and Sunday a timetable of school days leaves nothing
      uncovered. */
  lemma WeekendUncoversNothing(s: Schedule, absent: seq<string>, english: string)
    requires english == "Saturday" || english == "Sunday"
    requires forall r :: r in s ==> r.giorno in SCHOOL_DAYS
    ensures Uncovered(s, absent, ItalianDay(english)) == []
  {
    var day := ItalianDay(english);
    assert day == "Sabato" || day == "Domenica" by {
      assert english == ENGLISH_DAYS[5] || english == ENGLISH_DAYS[6];
    }
    FilterNone(s, (r: Row) => IsUncovered(r, absent, day));
  }
}
