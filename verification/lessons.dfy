/** Editing the timetable: adding one lesson by hand and accepting an
    uploaded CSV only when it has every required column. */
module Lessons {
  import opened Results
  import opened Seqs
  import opened Timetable

  /** The six columns a timetable CSV must contain, in stored order. */
  const REQUIRED_COLUMNS: seq<string> := ["Docente", "Giorno", "Ora", "Classe", "Tipo", "Escludi"]

  /** Why a new lesson is refused: a form field left empty, or the teacher
      already has a lesson at that day and hour. */
  datatype AddError = MissingField | SlotTaken

  /** Two rows occupy the same (teacher, day, hour) slot. */
  predicate SameSlot(a: Row, b: Row)
  {
    a.docente == b.docente && a.giorno == b.giorno && a.ora == b.ora
  }

  /** Every text field of the form is filled in (Python truthiness). */
  predicate Complete(r: Row)
  {
    r.docente != "" && r.giorno != "" && r.ora != "" && r.classe != "" && r.tipo != ""
  }

  /** At most one row per (teacher, day, hour). */
  ghost predicate SlotsUnique(s: Schedule)
  {
    forall i, j :: 0 <= i < j < |s| ==> !SameSlot(s[i], s[j])
  }

  /** The "Aggiungi" button: refused when a field is empty or the slot is
      already taken, otherwise the row is appended at the end. */
  function AddLesson(s: Schedule, row: Row): (r: Result<Schedule, AddError>)
    ensures r == Failure(MissingField) <==> !Complete(row)
    ensures r == Failure(SlotTaken) <==> Complete(row) && exists i :: 0 <= i < |s| && SameSlot(s[i], row)
    ensures r.Success? ==> |r.value| == |s| + 1 && r.value[..|s|] == s && r.value[|s|] == row
  {
    if !Complete(row) then Failure(MissingField)
    else
      var clashing := Filter(s, (x: Row) => SameSlot(x, row));
      if |clashing| > 0 then
        assert clashing[0] in s;
        Failure(SlotTaken)
      else
        assert forall i :: 0 <= i < |s| ==> s[i] in s;
        Success(s + [row])
  }

  /** Adding a lesson keeps every teacher in at most one class per hour. */
  lemma AddLessonKeepsSlotsUnique(s: Schedule, row: Row)
    requires SlotsUnique(s)
    requires AddLesson(s, row).Success?
    ensures SlotsUnique(AddLesson(s, row).value)
  {
    var t := AddLesson(s, row).value;
    forall i, j | 0 <= i < j < |t|
      ensures !SameSlot(t[i], t[j])
    {
      if j == |s| {
        assert t[i] == s[i];
      } else {
        assert t[i] == s[i] && t[j] == s[j];
      }
    }
  }

  /** Indices of `names` in `columns` (first occurrence of each), or None
      when one of them is missing. */
  function Locate(names: seq<string>, columns: seq<string>): (r: Option<seq<nat>>)
    ensures r.Some? <==> forall k :: 0 <= k < |names| ==> names[k] in columns
    ensures r.Some? ==> |r.value| == |names|
    ensures r.Some? ==> forall k :: 0 <= k < |names| ==> r.value[k] < |columns| && columns[r.value[k]] == names[k]
  {
    if |names| == 0 then Some([])
    else
      match (IndexOf(columns, names[0]), Locate(names[1..], columns))
      case (Some(i), Some(rest)) => Some([i] + rest)
      case _ => None
  }

  /** Position of the first occurrence of `x`. */
  function IndexOf(xs: seq<string>, x: string): (r: Option<nat>)
    ensures r.Some? <==> x in xs
    ensures r.Some? ==> r.value < |xs| && xs[r.value] == x && x !in xs[..r.value]
  {
    if |xs| == 0 then None
    else if xs[0] == x then Some(0)
    else match IndexOf(xs[1..], x)
      case None => None
      case Some(i) =>
        assert xs[..i + 1] == [xs[0]] + xs[1..][..i];
        Some(i + 1)
  }

  /** Uploading a CSV: accepted when every required column is present, and
      then its columns are taken in the stored order; otherwise refused
      with the list of required columns as the message. */
  function ImportColumns(columns: seq<string>): (r: Result<seq<nat>, seq<string>>)
    ensures r.Success? <==> forall c :: c in REQUIRED_COLUMNS ==> c in columns
    ensures r.Success? ==> |r.value| == |REQUIRED_COLUMNS|
    ensures r.Success? ==> forall k :: 0 <= k < |REQUIRED_COLUMNS| ==> r.value[k] < |columns| && columns[r.value[k]] == REQUIRED_COLUMNS[k]
    ensures r.Failure? ==> r.error == REQUIRED_COLUMNS
  {
    match Locate(REQUIRED_COLUMNS, columns)
    case Some(idx) => Success(idx)
    case None => Failure(REQUIRED_COLUMNS)
  }
}
