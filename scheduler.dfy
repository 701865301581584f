/** The note store: an ordered list of notes that is appended to, sorted in place, replaced
    on load and queried by day and by week. */
module Scheduling {
  import opened Results
  import opened Calendar
  import opened Seqs
  import opened Notes
  import opened NoteOrder

  /** What `find_notes_by_week` raises. OverflowError: the Sunday of the week would fall
      after 9999-12-31. TypeError: a `datetime` was ordered against a `date`. */
  datatype WeekError = DateOverflow | ComparisonTypeError

  /** `start_of_week + timedelta(days=6)` leaves the representable range; this happens for
      the dates 9999-12-27 to 9999-12-31. */
  predicate WeekEndOverflows(date: Timestamp)
  {
    WeekStart(date.DatePart()) + 6 > MaxOrdinal
  }

  class Scheduler {
    /** The notes, in insertion order until sorted. */
    var notes: seq<Note>

    constructor ()
      ensures notes == []
    {
      notes := [];
    }

    /** `add_note`: the note is appended; nothing is validated or de-duplicated. */
    method AddNote(note: Note)
      modifies this
      ensures notes == old(notes) + [note]
      ensures |notes| == |old(notes)| + 1 && notes[|notes| - 1] == note
      ensures forall i :: 0 <= i < |old(notes)| ==> notes[i] == old(notes)[i]
    {
      notes := notes + [note];
    }

    /** `get_notes`: the notes in their current order. */
    method GetNotes() returns (r: seq<Note>)
      ensures r == notes
    {
      r := notes;
    }

    /** `save_to_file`: the objects written to the file, one per note, in order. Loading them
        back gives the same notes to the second. */
    method SaveToFile() returns (written: seq<Dict>)
      ensures written == SaveDicts(notes)
      ensures LoadDicts(written) == Ok(AllWholeSeconds(notes))
    {
      written := SaveDicts(notes);
      LoadSaved(notes);
    }

    /** `load_from_file` on the objects read from the file: the notes are replaced by the
        parsed ones, in file order. The new list is built completely before it is assigned,
        so a failure leaves the notes as they were. */
    method LoadFromFile(objects: seq<Dict>) returns (r: Outcome<LoadError>)
      modifies this
      ensures LoadDicts(objects).Ok? ==> r == Pass && notes == LoadDicts(objects).value
      ensures LoadDicts(objects).Err? ==> r == Fail(LoadDicts(objects).error) && notes == old(notes)
    {
      match LoadDicts(objects)
      case Ok(loaded) =>
        notes := loaded;
        r := Pass;
      case Err(e) =>
        r := Fail(e);
    }

    /** `sort_notes`: a stable in-place sort by time. */
    method SortNotes()
      modifies this
      ensures notes == SortByTime(old(notes))
      ensures IsSortedByTime(notes)
      ensures multiset(notes) == multiset(old(notes))
      ensures forall k :: WithTime(notes, k) == WithTime(old(notes), k)
    {
      SortByTimeSorted(notes);
      forall k ensures WithTime(SortByTime(notes), k) == WithTime(notes, k) {
        SortByTimeStable(notes, k);
      }
      notes := SortByTime(notes);
    }

    /** `find_notes_by_date`: the stored notes on the calendar day of `date`, time of day
        ignored, in stored order. */
    function FindNotesByDate(date: Timestamp): (r: seq<Note>)
      reads this
      ensures IsSubsequence(r, notes)
      ensures forall n :: multiset(r)[n] == if n.time.DatePart() == date.DatePart() then multiset(notes)[n] else 0
    {
      var onDay := (n: Note) => n.time.DatePart() == date.DatePart();
      FilterIsSubsequence(notes, onDay);
      FilterCounts(notes, onDay);
      Filter(notes, onDay)
    }

    /** `find_notes_by_week` as intended: the stored notes dated from the Monday on or before
        `date` to the Sunday after it, both included, in stored order. Like the source, it
        fails when that Sunday is past the last representable date. */
    function FindNotesByWeek(date: Timestamp): (r: Result<seq<Note>, WeekError>)
      reads this
      ensures r.Err? <==> WeekEndOverflows(date)
      ensures r.Err? ==> r.error == DateOverflow
      ensures r.Ok? ==> IsSubsequence(r.value, notes)
      ensures r.Ok? ==> forall n :: multiset(r.value)[n]
                          == if InWeekOf(n.time.DatePart(), date.DatePart()) then multiset(notes)[n] else 0
    {
      if WeekEndOverflows(date) then Err(DateOverflow)
      else
        var inWeek := (n: Note) => InWeekOf(n.time.DatePart(), date.DatePart());
        FilterIsSubsequence(notes, inWeek);
        FilterCounts(notes, inWeek);
        Ok(Filter(notes, inWeek))
    }

    /** `find_notes_by_week` as written: the window bounds are `datetime`s and each note's
        date is a `date`, and Python refuses to order a `datetime` against a `date`. The
        comparison runs once per stored note, so the call fails unless the store is empty. */
    function FindNotesByWeekAsWritten(date: Timestamp): (r: Result<seq<Note>, WeekError>)
      reads this
      ensures WeekEndOverflows(date) ==> r == Err(DateOverflow)
      ensures !WeekEndOverflows(date) ==> (r.Ok? <==> notes == [])
      ensures !WeekEndOverflows(date) && notes != [] ==> r == Err(ComparisonTypeError)
      ensures r.Ok? ==> r.value == []
    {
      if WeekEndOverflows(date) then Err(DateOverflow)
      else if notes == [] then Ok([])
      else Err(ComparisonTypeError)
    }
  }

  /** After any run of `add_note` calls on a fresh store, `get_notes` gives exactly the
      added notes in the order they were added, duplicates and empty descriptions included. */
  method AddedInOrder(added: seq<Note>) returns (s: Scheduler)
    ensures fresh(s)
    ensures s.notes == added
  {
    s := new Scheduler();
    for i := 0 to |added|
      invariant s.notes == added[..i]
    {
      s.AddNote(added[i]);
      assert added[..i + 1] == added[..i] + [added[i]];
    }
    assert added[..|added|] == added;
  }

  /** The divergence of the week filter: on a store holding one note, querying the note's
      own date fails with a TypeError as written, while the intended filter returns it. */
  lemma WeekFilterAsWrittenFails(s: Scheduler, n: Note)
    requires s.notes == [n] && !WeekEndOverflows(n.time)
    ensures s.FindNotesByWeekAsWritten(n.time) == Err(ComparisonTypeError)
    ensures s.FindNotesByWeek(n.time) == Ok([n])
  {
    WeekStartIsMonday(n.time.DatePart());
    var r := s.FindNotesByWeek(n.time);
    assert multiset(r.value)[n] == 1;
    assert Filter([n], (m: Note) => InWeekOf(m.time.DatePart(), n.time.DatePart())) == [n];
  }
}
