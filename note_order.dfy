/** `list.sort(key=lambda note: note.note_time)`: a stable sort of notes by their time. */
module NoteOrder {
  import opened Calendar
  import opened Notes
  import opened Seqs

  /** No note is later than a note after it. */
  predicate IsSortedByTime(s: seq<Note>)
  {
    forall i, j :: 0 <= i < j < |s| ==> !Before(s[j].time, s[i].time)
  }

  /** The notes of `s` whose time is exactly `k`, in their order in `s`. Python's sort is
      stable: it keeps each such run as it was. */
  function WithTime(s: seq<Note>, k: DateTime): seq<Note>
  {
    Filter(s, (n: Note) => n.time == k)
  }

  /** `x` placed before the first note of `s` that is not earlier than it. */
  function Insert(x: Note, s: seq<Note>): (r: seq<Note>)
    ensures multiset(r) == multiset(s) + multiset{x}
  {
    if s == [] || !Before(s[0].time, x.time) then [x] + s
    else
      assert s == [s[0]] + s[1..];
      [s[0]] + Insert(x, s[1..])
  }

  /** Insertion sort, taking the notes from last to first so that a note goes before the
      later-inserted notes with the same time. */
  function SortByTime(s: seq<Note>): (r: seq<Note>)
    ensures multiset(r) == multiset(s)
  {
    if s == [] then []
    else
      assert s == [s[0]] + s[1..];
      Insert(s[0], SortByTime(s[1..]))
  }

  lemma AtOrBeforeTransitive(a: DateTime, b: DateTime, c: DateTime)
    requires !Before(b, a) && !Before(c, b)
    ensures !Before(c, a)
  {
    BeforeIsStrictTotalOrder(a, b, c);
    BeforeIsStrictTotalOrder(c, a, b);
    BeforeIsStrictTotalOrder(b, c, a);
  }

  lemma {:induction false} InsertSorted(x: Note, s: seq<Note>)
    requires IsSortedByTime(s)
    ensures IsSortedByTime(Insert(x, s))
  {
    if s == [] || !Before(s[0].time, x.time) {
      forall j | 0 <= j < |s| ensures !Before(s[j].time, x.time) {
        if j > 0 {
          AtOrBeforeTransitive(x.time, s[0].time, s[j].time);
        }
      }
      ConsSorted(x, s);
    } else {
      InsertSorted(x, s[1..]);
      BeforeIsStrictTotalOrder(s[0].time, x.time, x.time);
      InsertKeepsLowerBound(x, s[1..], s[0].time);
      ConsSorted(s[0], Insert(x, s[1..]));
    }
  }

  /** A note no later than any note of a time-ordered sequence can go in front of it. */
  lemma ConsSorted(h: Note, t: seq<Note>)
    requires IsSortedByTime(t)
    requires forall j :: 0 <= j < |t| ==> !Before(t[j].time, h.time)
    ensures IsSortedByTime([h] + t)
  {
    var r := [h] + t;
    forall i, j | 0 <= i < j < |r| ensures !Before(r[j].time, r[i].time) {
      assert r[j] == t[j - 1];
      if i > 0 {
        assert r[i] == t[i - 1];
      }
    }
  }

  /** Inserting a note no earlier than `lo` among notes no earlier than `lo` keeps every
      note no earlier than `lo`. */
  lemma InsertKeepsLowerBound(x: Note, s: seq<Note>, lo: DateTime)
    requires !Before(x.time, lo)
    requires forall j :: 0 <= j < |s| ==> !Before(s[j].time, lo)
    ensures forall j :: 0 <= j < |Insert(x, s)| ==> !Before(Insert(x, s)[j].time, lo)
  {
    var t := Insert(x, s);
    forall j | 0 <= j < |t| ensures !Before(t[j].time, lo) {
      assert t[j] in multiset(t);
      if t[j] != x {
        assert t[j] in multiset(s);
        var k :| 0 <= k < |s| && s[k] == t[j];
      }
    }
  }

  /** The result is ordered by time. */
  lemma {:induction false} SortByTimeSorted(s: seq<Note>)
    ensures IsSortedByTime(SortByTime(s))
  {
    if s != [] {
      SortByTimeSorted(s[1..]);
      InsertSorted(s[0], SortByTime(s[1..]));
    }
  }

  lemma WithTimeCons(n: Note, s: seq<Note>, k: DateTime)
    ensures WithTime([n] + s, k) == (if n.time == k then [n] else []) + WithTime(s, k)
  {
    assert ([n] + s)[1..] == s;
  }

  /** Inserting `x` does not move it past a note with the same time. */
  lemma {:induction false} InsertWithTime(x: Note, s: seq<Note>, k: DateTime)
    ensures WithTime(Insert(x, s), k) == WithTime([x] + s, k)
  {
    if s != [] && Before(s[0].time, x.time) {
      InsertWithTime(x, s[1..], k);
      BeforeIsStrictTotalOrder(x.time, s[0].time, x.time);
      assert s == [s[0]] + s[1..];
      WithTimeCons(s[0], Insert(x, s[1..]), k);
      WithTimeCons(x, s[1..], k);
      WithTimeCons(x, s, k);
      WithTimeCons(s[0], s[1..], k);
    }
  }

  /** Stability: the notes with any one time keep their relative order. */
  lemma {:induction false} SortByTimeStable(s: seq<Note>, k: DateTime)
    ensures WithTime(SortByTime(s), k) == WithTime(s, k)
  {
    if s != [] {
      SortByTimeStable(s[1..], k);
      InsertWithTime(s[0], SortByTime(s[1..]), k);
      WithTimeCons(s[0], SortByTime(s[1..]), k);
      WithTimeCons(s[0], s[1..], k);
      assert s == [s[0]] + s[1..];
    }
  }

  lemma {:induction false} WithTimeCount(s: seq<Note>, k: DateTime, x: Note)
    ensures multiset(WithTime(s, k))[x] == if x.time == k then multiset(s)[x] else 0
  {
    if s != [] {
      WithTimeCount(s[1..], k, x);
      WithTimeCons(s[0], s[1..], k);
      assert s == [s[0]] + s[1..];
    }
  }

  lemma SameRunsSameNotes(a: seq<Note>, b: seq<Note>)
    requires forall k :: WithTime(a, k) == WithTime(b, k)
    ensures multiset(a) == multiset(b)
  {
    forall x ensures multiset(a)[x] == multiset(b)[x] {
      WithTimeCount(a, x.time, x);
      WithTimeCount(b, x.time, x);
    }
  }

  lemma SortedHeadIsEarliest(a: seq<Note>, x: Note)
    requires IsSortedByTime(a) && x in a
    ensures !Before(x.time, a[0].time)
  {
    var i :| 0 <= i < |a| && a[i] == x;
    if i > 0 {
      assert !Before(a[i].time, a[0].time);
    } else {
      BeforeIsStrictTotalOrder(x.time, x.time, x.time);
    }
  }

  /** Two time-ordered sequences with the same run of notes at every time are equal. */
  lemma {:induction false} SortedRunsDetermine(a: seq<Note>, b: seq<Note>)
    requires IsSortedByTime(a) && IsSortedByTime(b)
    requires forall k :: WithTime(a, k) == WithTime(b, k)
    ensures a == b
    decreases |a|
  {
    SameRunsSameNotes(a, b);
    assert |a| == |multiset(a)| == |multiset(b)| == |b|;
    if a != [] {
      SortedSameHead(a, b);
      forall k ensures WithTime(a[1..], k) == WithTime(b[1..], k) {
        SameHeadSameTailRun(a, b, k);
      }
      assert IsSortedByTime(a[1..]) && IsSortedByTime(b[1..]);
      SortedRunsDetermine(a[1..], b[1..]);
      assert a == [a[0]] + a[1..] && b == [b[0]] + b[1..];
    }
  }

  /** Two time-ordered sequences with the same runs begin with the same note: the first
      note of the earliest run. */
  lemma SortedSameHead(a: seq<Note>, b: seq<Note>)
    requires IsSortedByTime(a) && IsSortedByTime(b) && a != [] && b != []
    requires forall k :: WithTime(a, k) == WithTime(b, k)
    ensures a[0] == b[0]
  {
    SameRunsSameNotes(a, b);
    assert a[0] in multiset(b) && b[0] in multiset(a);
    SortedHeadIsEarliest(b, a[0]);
    SortedHeadIsEarliest(a, b[0]);
    BeforeIsStrictTotalOrder(a[0].time, b[0].time, a[0].time);
    var k := a[0].time;
    assert a == [a[0]] + a[1..] && b == [b[0]] + b[1..];
    WithTimeCons(a[0], a[1..], k);
    WithTimeCons(b[0], b[1..], k);
    assert WithTime(a, k)[0] == a[0] && WithTime(b, k)[0] == b[0];
  }

  /** Removing the same first note from two sequences with equal runs at `k` leaves equal
      runs at `k`. */
  lemma SameHeadSameTailRun(a: seq<Note>, b: seq<Note>, k: DateTime)
    requires a != [] && b != [] && a[0] == b[0]
    requires WithTime(a, k) == WithTime(b, k)
    ensures WithTime(a[1..], k) == WithTime(b[1..], k)
  {
    assert a == [a[0]] + a[1..] && b == [b[0]] + b[1..];
    WithTimeCons(a[0], a[1..], k);
    WithTimeCons(b[0], b[1..], k);
    if a[0].time == k {
      assert WithTime(a, k)[1..] == WithTime(a[1..], k);
      assert WithTime(b, k)[1..] == WithTime(b[1..], k);
    } else {
      assert [] + WithTime(a[1..], k) == WithTime(a[1..], k);
      assert [] + WithTime(b[1..], k) == WithTime(b[1..], k);
    }
  }

  /** Any stable sort by time gives SortByTime's result: a time-ordered sequence that keeps
      the run of notes at every time as it was in `s` is SortByTime(s). So SortByTime stands
      for `list.sort` whatever algorithm carries it out. */
  lemma StableSortIsUnique(s: seq<Note>, r: seq<Note>)
    requires IsSortedByTime(r)
    requires forall k :: WithTime(r, k) == WithTime(s, k)
    ensures r == SortByTime(s)
  {
    SortByTimeSorted(s);
    forall k ensures WithTime(SortByTime(s), k) == WithTime(s, k) {
      SortByTimeStable(s, k);
    }
    SortedRunsDetermine(r, SortByTime(s));
  }
}
