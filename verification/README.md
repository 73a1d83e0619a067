# Substitute-teacher engine of "sostituzioni", in Dafny

This project models the rules inside the Streamlit script `app.py`. A
school keeps its weekly timetable ("orario") as rows
`(Docente, Giorno, Ora, Classe, Tipo, Escludi)`. An administrator marks some
teachers absent on a date. The script then:

1. derives the Italian weekday from the date;
2. selects the uncovered periods ("ore scoperte");
3. proposes a substitute for each period (two tiers, then "Nessuno");
4. sorts the proposals by period I..VI;
5. offers a dropdown of eligible teachers per line;
6. refuses a table that gives one substitute two classes in the same period;
7. appends the result to the "storico" and "assenze" history sheets, after
   optionally removing the lines already saved for that date.

It also models the add-lesson conflict check, the CSV column check and the
class-name sort key of the timetable view.

Modules (one file each): `Timetable` (rows, weekday map, uncovered
selection), `Proposals`, `Hours`, `Options`, `Conflicts`, `History`,
`Lessons` (add lesson, CSV columns), `ClassOrder` (`sort_classi`). The
helper modules are `Seqs` (pandas-style filter, `unique()`, first match,
`count`), `Text` (Python string order, `startswith`, `replace`) and
`Results`.

Points where the code's behaviour is easy to misread:

- Exclusion from substitution is by a `*` in the teacher's name. The
  `Escludi` column is never read, despite the comment at app.py:419.
- Proposals have two tiers. Tier 1 is the first same-class support row.
  Tier 2 is the first free support teacher in timetable order. Otherwise
  the proposal is "Nessuno": a free teacher without a support row at that
  hour is never proposed, and ties go to timetable order, not to the
  lighter load. The history totals computed at app.py:445-447 are never
  used.
- Tier 1 does not look at absences. `Proposals.SelfProposalExample` shows
  an absent support teacher proposed for their own lesson. The dropdown
  never lists absent teachers and falls back to index 0 ("Nessuno") when
  the proposal is not listed. So, when no teacher's name contains `[S] `,
  the value kept by default is never an absent teacher
  (`Options.DefaultChoice`). A name that does contain it loses that part
  when stored. `Options.MarkedNameExample` shows a support teacher named
  `[S] A` whose default is stored as the absent teacher `A`.
- The option builder marks a teacher `[S] ` when they have a support row
  on any day and hour (app.py:518), not only at that hour. The sort key
  tests the prefix `[S]` without the space. Stripping removes every
  occurrence of `[S] `, as `str.replace` does.
- An hour outside I..VI becomes a missing value when the column is made
  categorical (app.py:506). Such lines sort last, get an option list with
  only "Nessuno", and take part in no conflict check.
- Sorting by hour uses pandas' default algorithm, which does not promise
  stability. The model sorts stably by insertion. Its contract states only
  what any admissible order satisfies: sorted by period, and a permutation.

## Model

| member | source | states |
|---|---|---|
| Timetable.ItalianDay | app.py:404-414 | Each of the seven English weekday names maps to its Italian name; any other name is returned unchanged |
| Timetable.Uncovered | app.py:420-423 | A row is selected iff its teacher is absent and its day is the derived day |
| Timetable.UncoveredConcat | app.py:420-423 | The selection splits along any split of the timetable, so timetable order and repeats are kept |
| Timetable.UncoveredSingle | app.py:420-423 | A single row is kept exactly when its teacher is absent on that day |
| Timetable.UncoveredNobodyAbsent | app.py:420-423 | With no absent teacher nothing is uncovered |
| Timetable.WeekendUncoversNothing | app.py:404-423 | On Saturday or Sunday, a timetable of school days leaves nothing uncovered |
| Proposals.Present | app.py:450-453 | The "presenti_ora" list holds each teacher with a row at that day and hour, once |
| Proposals.Busy | app.py:455-459 | The "occupati_curr" list holds exactly the teachers with a non-support row at that day and hour |
| Proposals.FreeMeansFree | app.py:461-467 | A teacher is in "liberi" iff they have a row at that hour, every such row is a support row, they are not absent and their name has no `*` |
| Proposals.Proposal | app.py:469-492 | The proposal is "Nessuno" or a teacher without `*` who has a support row at that day and hour |
| Proposals.ProposalPrefersSameClassSupport | app.py:470-478 | If a same-class support row without `*` exists, the proposal is the teacher of the first one, absent or not |
| Proposals.ProposalIsFirstListed | app.py:479-492 | Without such a row, the proposal is the teacher of the first row that is a support row at that hour, has no `*`, and whose teacher is in "liberi"; if there is no such row, it is "Nessuno" |
| Proposals.ProposalWithoutSameClassSupport | app.py:462-492 | Without a same-class support row, the proposal is the teacher of the earliest support row whose teacher is free at that hour; otherwise it is "Nessuno" and no such row exists |
| Proposals.Propose | app.py:449-499 | One proposal per uncovered row, in order. Each copies Ora and Classe, names the row's absent teacher as Assente, and matches a timetable lesson of that teacher on that day |
| Proposals.SelfProposalExample | app.py:470-478 | An absent support teacher in the same class is proposed, including for their own lesson |
| Hours.HourRank | app.py:504-507 | I..VI get ranks 0..5 in order; any other hour ranks after all of them |
| Hours.SortByHour | app.py:504-507 | The sorted table is ordered by period and is a permutation of the input |
| Hours.DraftTable | app.py:404-507 | The reviewed table is the day's proposals sorted by period: one line per uncovered row |
| Options.Supporters | app.py:518 | A teacher is in "sostegni" iff they have a support row anywhere in the timetable |
| Options.Offered | app.py:512-523 | The teachers offered are exactly those present at that hour (a real hour I..VI), not absent, and without `*` |
| Options.ValidOptions | app.py:521-527 | Each option is an offered teacher's name, marked `[S] ` when a support teacher, and every offered teacher appears |
| Options.OptionList | app.py:529-533 | The list starts with "Nessuno". Then come exactly the offered entries, as a permutation. Marked entries precede unmarked ones, and each group is in string order |
| Options.StripDisplay | app.py:536-550 | Removing `[S] ` from a shown entry gives back the teacher's name when the name does not contain `[S] ` |
| Options.SelectIndex | app.py:545 | The default index is the first position holding the proposal when it is listed, and 0 otherwise |
| Options.ChosenIsEligible | app.py:542-550 | Whatever option is picked, the stored value is "Nessuno" or an eligible teacher's entry with the marker removed |
| Options.DefaultChoice | app.py:535-550 | A listed proposal is kept with the marker removed, and an unlisted one becomes "Nessuno". The value is therefore "Nessuno" or an eligible teacher's entry; when no name contains the marker it is never an absent teacher |
| Options.MarkedNameExample | app.py:518-550 | A support teacher named `[S] A` is shown as `[S] [S] A` and stored as `A`, here an absent teacher |
| Options.DefaultChoiceKeepsEligible | app.py:535-550 | A proposal that is present at that hour, not absent and without `*` is kept unchanged by default |
| Conflicts.Duplicates | app.py:595-597 | A value is reported iff it sits at two distinct positions of the list |
| Conflicts.TableHours | app.py:592 | The periods iterated are the table's periods in I..VI, each once |
| Conflicts.ConflictsOver | app.py:592-597 | Reports, for each given period, its substitutes that appear twice or more, and only when such substitutes exist |
| Conflicts.DuplicatesAreDoubleBookings | app.py:593-597 | A substitute is reported for a period iff it is not "Nessuno" and sits on two distinct lines of that period |
| Conflicts.CheckConflicts | app.py:590-597 | A period is reported iff it is in I..VI and some substitute other than "Nessuno" is double-booked in it. The reported names are exactly those substitutes. Each period is reported once |
| History.StoricoRows | app.py:152-156 | Each row is `(date, day, substitute, 1)` with a substitute other than empty or "Nessuno". N lines with M empty or "Nessuno" substitutes give N-M rows |
| History.StoricoRowsConcat | app.py:152-156 | The storico rows keep table order |
| History.StoricoRowsSingle | app.py:153-156 | A line gives exactly one row naming its substitute when credited, and none otherwise |
| History.AssenzeRows | app.py:161-163 | One assenze row per uncovered row, in order: row i holds the date, the day, and the teacher, hour and class of uncovered row i |
| History.AssenzeRecordUncoveredLessons | app.py:161-163 | Each assenze row names an absent teacher with a lesson at that hour and class on that day |
| History.RemoveByDate | app.py:200-201 | A row is kept iff its date differs; kept and removed rows add up to the sheet |
| History.RemoveByDateConcat | app.py:201 | Removal keeps the order of the remaining rows |
| History.RemoveAbsentDate | app.py:622-644 | When no row carries the date, removing it leaves the sheet unchanged |
| History.ReplaceDateExact | app.py:639-644 | After the replace, the date's rows are exactly the new rows, and rows of other dates are unchanged and in order |
| Lessons.AddLesson | app.py:354-373 | Refused for an empty field. Otherwise refused iff the teacher already has a row at that day and hour. Otherwise the row is appended and nothing else changes |
| Lessons.AddLessonKeepsSlotsUnique | app.py:365-373 | Adding a lesson keeps at most one row per (teacher, day, hour) |
| Lessons.ImportColumns | app.py:326-332 | The CSV is accepted iff every required column is present; its columns are then taken in the stored order; otherwise the message lists the required columns |
| Lessons.Locate | app.py:327-328 | Finds every requested column, or reports that one is missing |
| ClassOrder.ClassKey | app.py:265-269 | A name not starting with a digit gets the key (10**9, name) |
| ClassOrder.ClassKeyOfParts | app.py:265-269 | A name made of digits, optional spaces, letters, then a non-letter gets the key (number, letters upper-cased) |
| ClassOrder.ClassKeyWithoutLetters | app.py:266-269 | Digits, optional blanks, then anything that is neither a letter nor a blank ("12", "3-A", "4 *") do not match: the key is (10**9, name) |
| ClassOrder.ClassKeyOrder | app.py:265-270 | Of two numbered classes (digits, optional blanks, letters, then a non-letter), the smaller number sorts first whatever the letters, and numbered classes sort before names that do not start with a digit |
| Text.RemoveAllAbsent | app.py:550 | `replace("[S] ", "")` leaves a string without the marker unchanged |
| Text.LessTotal | app.py:530-533 | Python string order is total: any two distinct options compare one way or the other |

## Left out

- Google Sheets storage: the client, sheet creation, loading and saving the
  timetable and the history, and clearing a sheet. These are network and
  storage calls. The history functions give the rows that are appended,
  and `History.RemoveByDate` gives the rows written back. The case where
  the sheet has no `data` column (app.py:197-198) is an I/O concern and is
  left out.
- pandas normalisation when loading (`to_datetime`, `strip`, dtype
  coercion). Cells are modelled as strings. Missing cells (NaN), the
  `na=False` of `str.contains` and the truthiness of NaN are not modelled.
- The weekday name comes from `strftime("%A")`, which depends on the
  clock and the locale. It is a parameter of the model.
- The Streamlit interface: widgets, session state, the confirm and save
  buttons, styling, the pivot views, charts and the WhatsApp message. Only
  the rules they call are modelled. In particular the duplicate check and
  the date removal are modelled, not the button flow around them.
- The bulk edit grid (app.py:380-390) replaces the whole timetable with
  whatever the user typed; there is no rule to model.
- The load totals computed at app.py:445-447 are never used by the
  proposal, so nothing is modelled for them.
- `app_registro.py` (another Sheets front end with plain equality filters)
  and `copy_to_clipboard_button.py` (HTML and JavaScript generation) are
  not part of this model.
- ClassOrder.ClassKey: `\d` is restricted to ASCII digits, because Python
  also matches other Unicode decimal digits and `int()` converts them.
  `upper()` is modelled only for the letters the pattern accepts.
- Lessons.ImportColumns: gives the positions of the required columns
  rather than the projected table; the dtype conversion of the projected
  table is pandas behaviour.
