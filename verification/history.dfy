/** The two append-only history sheets: "storico" (one credited hour per
    substitution made) and "assenze" (one line per uncovered period), and
    the removal of a day's lines before they are written again. */
module History {
  import opened Seqs
  import opened Timetable
  import opened Proposals

  /** A line of either sheet; both start with the date column `data`. */
  datatype HistoryRow =
    | Storico(data: string, giorno: string, docente: string, ore: int)
    | Assenza(data: string, giorno: string, docente: string, ora: string, classe: string)

  /** A line earns an hour when its substitute is neither empty nor "Nessuno". */
  predicate Credited(x: Substitution)
  {
    x.sostituto != "" && x.sostituto != NESSUNO
  }

  /** The rows appended to "storico" for a confirmed table. */
  function StoricoRows(date: string, day: string, table: seq<Substitution>): (rows: seq<HistoryRow>)
    ensures |rows| + |Filter(table, (x: Substitution) => !Credited(x))| == |table|
    ensures forall r :: r in rows ==>
      r.Storico? && r.data == date && r.giorno == day && r.ore == 1 && r.docente != "" && r.docente != NESSUNO
  {
    if |table| == 0 then []
    else
      (if Credited(table[0]) then [Storico(date, day, table[0].sostituto, 1)] else [])
      + StoricoRows(date, day, table[1..])
  }

  /** The rows keep table order: they split along any split of the table. */
  lemma {:induction false} StoricoRowsConcat(date: string, day: string, a: seq<Substitution>, b: seq<Substitution>)
    ensures StoricoRows(date, day, a + b) == StoricoRows(date, day, a) + StoricoRows(date, day, b)
  {
    if |a| > 0 {
      assert (a + b)[1..] == a[1..] + b;
      StoricoRowsConcat(date, day, a[1..], b);
    } else {
      assert a + b == b;
    }
  }

  /** One line gives one row naming its substitute exactly when credited;
      with `StoricoRowsConcat` this fixes the rows line by line. */
  lemma StoricoRowsSingle(date: string, day: string, x: Substitution)
    ensures StoricoRows(date, day, [x]) == if Credited(x) then [Storico(date, day, x.sostituto, 1)] else []
  {
    assert [x][1..] == [];
  }

  /** The rows appended to "assenze": one per uncovered period. */
  function AssenzeRows(date: string, day: string, uncovered: Schedule): (rows: seq<HistoryRow>)
    ensures |rows| == |uncovered|
    ensures forall i :: 0 <= i < |rows| ==> rows[i].Assenza? && rows[i].data == date && rows[i].giorno == day
    ensures forall i :: 0 <= i < |rows| ==>
      rows[i] == Assenza(date, day, uncovered[i].docente, uncovered[i].ora, uncovered[i].classe)
  {
    Map(uncovered, (u: Row) => Assenza(date, day, u.docente, u.ora, u.classe))
  }

  /** Recording the uncovered periods of a day: every row names an absent
      teacher with a lesson at that hour and class on that day. */
  lemma AssenzeRecordUncoveredLessons(s: Schedule, absent: seq<string>, date: string, day: string)
    ensures |AssenzeRows(date, day, Uncovered(s, absent, day))| == |Uncovered(s, absent, day)|
    ensures forall r :: r in AssenzeRows(date, day, Uncovered(s, absent, day)) ==>
      r.Assenza? && r.docente in absent
      && exists l :: l in s && l.docente == r.docente && l.giorno == day && l.ora == r.ora && l.classe == r.classe
  {
    var u := Uncovered(s, absent, day);
    forall r | r in AssenzeRows(date, day, u)
      ensures r.Assenza? && r.docente in absent
      ensures exists l :: l in s && l.docente == r.docente && l.giorno == day && l.ora == r.ora && l.classe == r.classe
    {
      MapMember(u, (x: Row) => Assenza(date, day, x.docente, x.ora, x.classe), r);
      var l :| l in u && r == Assenza(date, day, l.docente, l.ora, l.classe);
      assert l in s;
    }
  }

  /** The sheet without the lines of `date` (`df["data"] != str(data)`). */
  function RemoveByDate(rows: seq<HistoryRow>, date: string): (kept: seq<HistoryRow>)
    ensures forall r :: r in kept <==> r in rows && r.data != date
    ensures |kept| + |Filter(rows, (r: HistoryRow) => r.data == date)| == |rows|
  {
    FilterSplitsLength(rows, (r: HistoryRow) => r.data != date, (r: HistoryRow) => r.data == date);
    Filter(rows, (r: HistoryRow) => r.data != date)
  }

  /** The lines of other dates keep their order. */
  lemma RemoveByDateConcat(a: seq<HistoryRow>, b: seq<HistoryRow>, date: string)
    ensures RemoveByDate(a + b, date) == RemoveByDate(a, date) + RemoveByDate(b, date)
  {
    FilterConcat(a, b, (r: HistoryRow) => r.data != date);
  }

  /** "gia_presenti": the sheet already holds lines for `date`. */
  predicate HasDate(rows: seq<HistoryRow>, date: string)
  {
    exists i :: 0 <= i < |rows| && rows[i].data == date
  }

  /** With nothing saved for the date, removing it changes nothing. */
  lemma {:induction false} RemoveAbsentDate(rows: seq<HistoryRow>, date: string)
    requires !HasDate(rows, date)
    ensures RemoveByDate(rows, date) == rows
  {
    if |rows| > 0 {
      assert !HasDate(rows[1..], date) by {
        forall i | 0 <= i < |rows[1..]|
          ensures rows[1..][i].data != date
        {
          assert rows[1..][i] == rows[i + 1];
        }
      }
      RemoveAbsentDate(rows[1..], date);
      assert rows == [rows[0]] + rows[1..];
    }
  }

  /** "Sostituisci quelle del giorno": drop the date's lines, then append. */
  function ReplaceDate(rows: seq<HistoryRow>, date: string, incoming: seq<HistoryRow>): seq<HistoryRow>
  {
    RemoveByDate(rows, date) + incoming
  }

  /** After replacing, the lines of `date` are exactly the new ones and the
      lines of every other date are the old ones, in order. */
  lemma ReplaceDateExact(rows: seq<HistoryRow>, date: string, incoming: seq<HistoryRow>)
    requires forall r :: r in incoming ==> r.data == date
    ensures Filter(ReplaceDate(rows, date, incoming), (r: HistoryRow) => r.data == date) == incoming
    ensures RemoveByDate(ReplaceDate(rows, date, incoming), date) == RemoveByDate(rows, date)
  {
    var kept := RemoveByDate(rows, date);
    FilterConcat(kept, incoming, (r: HistoryRow) => r.data == date);
    FilterNone(kept, (r: HistoryRow) => r.data == date);
    FilterAll(incoming, (r: HistoryRow) => r.data == date);
    RemoveByDateConcat(kept, incoming, date);
    FilterNone(incoming, (r: HistoryRow) => r.data != date);
    RemoveAbsentDate(kept, date);
  }
}
