/** The `Note` value object and its dictionary form, which `save_to_file` writes as a JSON
    array and `load_from_file` reads back. */
module Notes {
  import opened Results
  import opened Calendar
  import opened TimestampText

  /** One JSON object of the saved file, with its string values. */
  type Dict = map<string, string>

  const DescriptionKey := "description"
  const TimeKey := "note_time"

  /** What `Note.from_dict` raises: KeyError for a missing key, ValueError for a time that
      does not match `%Y-%m-%d %H:%M:%S`. */
  datatype LoadError = MissingKey(key: string) | BadTime(text: string)

  /** A timestamped text entry. Any description is allowed, the empty one included. */
  datatype Note = Note(description: string, time: Timestamp)
  {
    /** `Note.to_dict`: the description and the time written to the second. */
    function ToDict(): (d: Dict)
      ensures d.Keys == {DescriptionKey, TimeKey}
      ensures d[DescriptionKey] == description && d[TimeKey] == FormatTimestamp(time)
    {
      map[DescriptionKey := description, TimeKey := FormatTimestamp(time)]
    }

    /** The note as it is after a save and a load: its time without microseconds. */
    function WholeSeconds(): Note
    {
      Note(description, DropMicroseconds(time))
    }

    /** `Note.from_dict`. The time is looked up and parsed before the description is looked
        up, so a missing or malformed time is reported even when the description is missing
        too. Keys other than the two are ignored. */
    static function FromDict(d: Dict): (r: Result<Note, LoadError>)
      ensures TimeKey !in d ==> r == Err(MissingKey(TimeKey))
      ensures TimeKey in d && ParseTimestamp(d[TimeKey]).None? ==> r == Err(BadTime(d[TimeKey]))
      ensures TimeKey in d && ParseTimestamp(d[TimeKey]).Some? && DescriptionKey !in d
              ==> r == Err(MissingKey(DescriptionKey))
      ensures r.Ok? <==> TimeKey in d && DescriptionKey in d && ParseTimestamp(d[TimeKey]).Some?
      ensures r.Ok? ==> r.value.description == d[DescriptionKey]
                        && Some(r.value.time) == ParseTimestamp(d[TimeKey])
                        && r.value.time.microsecond == 0
    {
      if TimeKey !in d then Err(MissingKey(TimeKey))
      else match ParseTimestamp(d[TimeKey])
      case None => Err(BadTime(d[TimeKey]))
      case Some(t) =>
        if DescriptionKey !in d then Err(MissingKey(DescriptionKey))
        else Ok(Note(d[DescriptionKey], t))
    }
  }

  /** `Note.from_dict(n.to_dict())` gives `n` back, except for its microseconds. */
  lemma FromDictToDict(n: Note)
    ensures Note.FromDict(n.ToDict()) == Ok(n.WholeSeconds())
  {
    ParseFormat(n.time);
  }

  /** What `save_to_file` serialises: `[note.to_dict() for note in notes]`. */
  function SaveDicts(notes: seq<Note>): (ds: seq<Dict>)
    ensures |ds| == |notes|
    ensures forall i :: 0 <= i < |notes| ==> ds[i] == notes[i].ToDict()
  {
    seq(|notes|, i requires 0 <= i < |notes| => notes[i].ToDict())
  }

  /** What `load_from_file` builds: `[Note.from_dict(d) for d in dicts]`, which stops at the
      first element that raises and reports that element's error. */
  function LoadDicts(ds: seq<Dict>): (r: Result<seq<Note>, LoadError>)
    ensures r.Ok? <==> forall i :: 0 <= i < |ds| ==> Note.FromDict(ds[i]).Ok?
    ensures r.Ok? ==> |r.value| == |ds| && forall i :: 0 <= i < |ds| ==> Note.FromDict(ds[i]) == Ok(r.value[i])
    ensures r.Err? ==> exists i :: 0 <= i < |ds| && Note.FromDict(ds[i]) == Err(r.error)
                                   && forall j :: 0 <= j < i ==> Note.FromDict(ds[j]).Ok?
  {
    MapOrFail(ds, Note.FromDict)
  }

  /** The notes with their microseconds dropped. */
  function AllWholeSeconds(notes: seq<Note>): (r: seq<Note>)
  {
    seq(|notes|, i requires 0 <= i < |notes| => notes[i].WholeSeconds())
  }

  /** Saving then loading reproduces the notes, in order, to the second. */
  lemma LoadSaved(notes: seq<Note>)
    ensures LoadDicts(SaveDicts(notes)) == Ok(AllWholeSeconds(notes))
  {
    var ds := SaveDicts(notes);
    forall i | 0 <= i < |notes|
      ensures Note.FromDict(ds[i]) == Ok(notes[i].WholeSeconds())
    {
      FromDictToDict(notes[i]);
    }
    var r := LoadDicts(ds);
    assert r.Ok?;
    assert r.value == AllWholeSeconds(notes) by {
      forall i | 0 <= i < |notes|
        ensures r.value[i] == notes[i].WholeSeconds()
      {
        assert Note.FromDict(ds[i]) == Ok(r.value[i]);
      }
    }
  }
}
