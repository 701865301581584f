# Note store model

A Dafny model of the note store of the FREEDUROV console scheduler (`FREEDUROV.py`): the
immutable `Note` value (a description and a naive date-time), its dictionary form used by
the JSON file, and the `Scheduler` that keeps an ordered list of notes, appends to it, sorts
it stably by time, replaces it on load and filters it by calendar day and by Monday-to-Sunday
week.

Modules, leaves first:

- `Results` (`results.dfy`): `Option`, `Result` and `Outcome`, standing for the exceptions
  the store raises.
- `Seqs` (`seqs.dfy`): `Filter`, the meaning of a list comprehension with a condition, and
  `IsSubsequence`; a filter keeps every selected element as often as it occurs, in order.
- `Calendar` (`calendar.dfy`): the part of Python's `datetime` the store relies on: validity
  of dates and date-times (years 1 to 9999), their ordering, `toordinal` and `weekday`, and
  the week window of `find_notes_by_week`.
- `TimestampText` (`timestamp_text.dfy`): `strftime('%Y-%m-%d %H:%M:%S')` and
  `strptime(text, '%Y-%m-%d %H:%M:%S')`. The parser accepts what CPython's `strptime`
  accepts for that format: a four-digit year; one- or two-digit month, day, hour, minute
  and second within the ranges of its patterns (`%d` also as a space and one digit); any
  run of whitespace between date and time; then the `datetime` range checks.
- `Notes` (`notes.dfy`): `Note`, `Note.ToDict`, `Note.FromDict` (time looked up and parsed
  before the description is looked up), the list of objects `save_to_file` writes and the
  list `load_from_file` builds.
- `NoteOrder` (`note_order.dfy`): `list.sort(key=note_time)` as a stable insertion sort,
  proved ordered, a permutation and stable, and proved equal to any stable sort by time.
- `Scheduling` (`scheduler.dfy`): the class `Scheduler` with its field `notes`.

File I/O is not modelled: `SaveToFile` returns the objects that would be written and
`LoadFromFile` takes the objects that were read.

Three behaviours of the code are worth noting, and the model follows the code.
`find_notes_by_week` always fails on a non-empty store; see Findings. `get_notes` hands out
the internal list itself rather than a protected view. A loaded object that lacks
`note_time` fails with a KeyError for `note_time` even when `description` is missing too,
because the time is read first.

## Model

| member | source | states |
|---|---|---|
| `Scheduling.Scheduler.constructor` | FREEDUROV.py:31-32 | a new store holds no notes |
| `Scheduling.Scheduler.AddNote` | FREEDUROV.py:34-35 | the note is appended: one more note, the new one last, every earlier note unchanged and in its place |
| `Scheduling.Scheduler.GetNotes` | FREEDUROV.py:37-38 | returns the stored notes in their current order |
| `Scheduling.AddedInOrder` | FREEDUROV.py:31-38 | after any run of additions to a fresh store, the store holds exactly the added notes in insertion order, duplicates and empty descriptions included |
| `Scheduling.Scheduler.SaveToFile` | FREEDUROV.py:40-43 | writes one object per note, in order, and loading those objects back yields the same notes to the second |
| `Scheduling.Scheduler.LoadFromFile` | FREEDUROV.py:45-48 | on success the notes are replaced by the parsed notes in file order; on the first failing object its error is reported and the previous notes are kept |
| `Scheduling.Scheduler.SortNotes` | FREEDUROV.py:50-51 | afterwards the notes are in time order, a permutation of the previous notes, and the notes sharing any one time keep their previous relative order |
| `Scheduling.Scheduler.FindNotesByDate` | FREEDUROV.py:53-54 | the result is an order-preserving subsequence of the notes holding every note whose calendar date equals the query's date, as often as stored, and no other; time of day is ignored |
| `Scheduling.Scheduler.FindNotesByWeek` | FREEDUROV.py:56-59 | fails exactly when the week's Sunday is past 9999-12-31; otherwise an order-preserving subsequence holding every stored note dated from the Monday on or before the query date to six days later, inclusive, and no other |
| `Scheduling.Scheduler.FindNotesByWeekAsWritten` | FREEDUROV.py:56-59 | as written: fails on overflow of the week end; otherwise an empty store gives an empty result and any other store fails with the TypeError of ordering a `datetime` against a `date` |
| `Scheduling.WeekFilterAsWrittenFails` | FREEDUROV.py:57-59 | for a store holding one note, querying its own date fails with a TypeError as written while the intended filter returns that note |
| `Notes.Note.ToDict` | FREEDUROV.py:18-22 | exactly the keys `description` and `note_time`, holding the description and the time written as `%Y-%m-%d %H:%M:%S` |
| `Notes.Note.FromDict` | FREEDUROV.py:24-27 | KeyError for `note_time` when it is missing; ValueError when its text does not parse; then KeyError for `description` when that is missing; otherwise a note with that description and the parsed time, microseconds zero |
| `Notes.FromDictToDict` | FREEDUROV.py:18-27 | `from_dict(to_dict(n))` is `n` with its microseconds dropped |
| `Notes.SaveDicts` | FREEDUROV.py:42 | one object per note, each the note's `to_dict`, in order |
| `Notes.LoadDicts` | FREEDUROV.py:47-48 | succeeds iff every object parses, giving the parsed notes in order; otherwise the error of the first object that fails |
| `Notes.LoadSaved` | FREEDUROV.py:40-48 | loading what was saved yields the saved notes, in order, to the second |
| `TimestampText.ParseTimestamp` | FREEDUROV.py:26 | a parsed time is a valid date-time with zero microseconds |
| `TimestampText.FormatTimestamp` | FREEDUROV.py:21 | the written time is nineteen characters long |
| `TimestampText.FormatTimestampLayout` | FREEDUROV.py:21 | the written time is `YYYY-MM-DD HH:MM:SS`: digit fields at positions 0-3, 5-6, 8-9, 11-12, 14-15 and 17-18 holding the year, month, day, hour, minute and second, with '-' at 4 and 7, a space at 10 and ':' at 13 and 16 |
| `TimestampText.ParseFormat` | FREEDUROV.py:21-26 | parsing the written form of a time gives the time back to the second |
| `TimestampText.MinutesOnlyRejected` | FREEDUROV.py:26 | a time written without seconds, as the menu asks users to type it, does not parse in the storage format |
| `NoteOrder.SortByTime` | FREEDUROV.py:51 | the sorted notes are a permutation of the notes |
| `NoteOrder.SortByTimeSorted` | FREEDUROV.py:51 | the sorted notes are in time order |
| `NoteOrder.SortByTimeStable` | FREEDUROV.py:51 | the notes with any one time appear in the same relative order before and after sorting |
| `NoteOrder.StableSortIsUnique` | FREEDUROV.py:51 | any time-ordered arrangement that keeps every equal-time run as it was equals the model's sort, whatever algorithm produced it |
| `Calendar.BeforeIsStrictTotalOrder` | FREEDUROV.py:51 | the time order used for sorting is irreflexive, transitive and total |
| `Calendar.OrdinalOrder` | FREEDUROV.py:59 | comparing day numbers is comparing dates in Python's order, and equal day numbers mean equal dates |
| `Calendar.OrdinalRange` | FREEDUROV.py:57-58 | every date has a day number from 1 to that of 9999-12-31 |
| `Calendar.WeekStartIsMonday` | FREEDUROV.py:57 | the window starts on a Monday no earlier than 0001-01-01, at most six days before the query date |
| `Calendar.SameWeek` | FREEDUROV.py:56-59 | a date lies in the window of the query date iff both have the same Monday |
| `Calendar.InWeekOfByDates` | FREEDUROV.py:57-59 | the window test is the inclusive date comparison between the window's Monday and Sunday |
| `Calendar.WeekOfWednesdayExample` | FREEDUROV.py:56-59 | for Wednesday 2024-03-06 the window holds 2024-03-04 and 2024-03-10 and excludes 2024-03-03 and 2024-03-11 |

## Left out

- File I/O and JSON text (`open`, `json.dump`, `json.load`): save is the list of objects written, load parses a given list of objects; missing or unreadable files are not modelled.
- JSON values other than strings inside the objects, and a file whose top level is not a list of objects.
- `Scheduling.Scheduler.GetNotes`: returns the notes as a value; the source returns its internal list, which a caller could then change (aliasing not modelled).
- `INoteView`, `ConsoleNoteView`, `SchedulerPresenter`, `main` and `code_date.py`: console output, prompts and delegation, with no store logic of their own.
- The menu's parsing of typed dates and times (`%Y-%m-%d %H:%M` and `%Y-%m-%d`): input handling; times entered there have zero seconds and microseconds.
- `TimestampText.ParseTimestamp`: ASCII digits only; Python's `\d` also accepts other Unicode decimal digits, which the model refuses.
- `TimestampText.FormatTimestamp`: writes years below 1000 zero-padded to four digits; what CPython writes for them depends on the platform's C library (some write them unpadded, and that text does not load back).
- Python's Timsort algorithm: modelled by insertion sort; `NoteOrder.StableSortIsUnique` shows every stable sort by time gives the same list.
- Timezones: the source uses naive date-times only.

## Findings

| source | as written | input that shows it | evidently intended | confidence | as-written member | corrected member |
|---|---|---|---|---|---|---|
| FREEDUROV.py:57-59 | the window bounds are `datetime`s and are ordered against each note's `date`, which raises TypeError, so the call fails whenever the store is not empty | a store holding one note at 2024-03-06 10:00:00, queried with 2024-03-06 | the notes dated Monday 2024-03-04 to Sunday 2024-03-10 inclusive, here that note | not executed | `Scheduling.Scheduler.FindNotesByWeekAsWritten` | `Scheduling.Scheduler.FindNotesByWeek` |
