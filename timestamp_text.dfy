/** The text form of a note's time: `strftime('%Y-%m-%d %H:%M:%S')` when saving and
    `datetime.strptime(text, '%Y-%m-%d %H:%M:%S')` when loading. */
module TimestampText {
  import opened Results
  import opened Calendar

  predicate IsDigit(c: char)
  {
    '0' <= c <= '9'
  }

  predicate AllDigits(s: string)
  {
    forall i :: 0 <= i < |s| ==> IsDigit(s[i])
  }

  /** The characters `\s` matches in a Python text pattern (those for which `str.isspace()` holds). */
  predicate IsSpace(c: char)
  {
    '\U{0009}' <= c <= '\U{000D}' || '\U{001C}' <= c <= '\U{0020}'
    || c == '\U{0085}' || c == '\U{00A0}' || c == '\U{1680}' || '\U{2000}' <= c <= '\U{200A}'
    || c == '\U{2028}' || c == '\U{2029}' || c == '\U{202F}' || c == '\U{205F}' || c == '\U{3000}'
  }

  function Pow10(w: nat): (p: nat)
    ensures p >= 1
  {
    if w == 0 then 1 else 10 * Pow10(w - 1)
  }

  function DigitChar(d: int): (c: char)
    requires 0 <= d <= 9
    ensures IsDigit(c)
  {
    ('0' as int + d) as char
  }

  function DigitValue(c: char): int
    requires IsDigit(c)
  {
    c as int - '0' as int
  }

  /** The decimal value of a run of ASCII digits, as `int()` reads it. */
  function Value(s: string): nat
    requires AllDigits(s)
  {
    if s == [] then 0 else Value(s[..|s| - 1]) * 10 + DigitValue(s[|s| - 1])
  }

  /** `n` written with exactly `width` digits, zero-padded on the left. */
  function Pad(n: nat, width: nat): (s: string)
    requires n < Pow10(width)
    ensures |s| == width && AllDigits(s)
  {
    if width == 0 then [] else Pad(n / 10, width - 1) + [DigitChar(n % 10)]
  }

  lemma {:induction false} ValueBound(s: string)
    requires AllDigits(s)
    ensures Value(s) < Pow10(|s|)
  {
    if s != [] {
      ValueBound(s[..|s| - 1]);
    }
  }

  /** Reading back a padded number gives the number. */
  lemma {:induction false} ValueOfPad(n: nat, width: nat)
    requires n < Pow10(width)
    ensures Value(Pad(n, width)) == n
  {
    if width > 0 {
      var a := Pad(n / 10, width - 1);
      var s := Pad(n, width);
      assert s == a + [DigitChar(n % 10)];
      assert s[..|s| - 1] == a;
      ValueOfPad(n / 10, width - 1);
    }
  }

  /** `strftime('%Y-%m-%d %H:%M:%S')`: nineteen characters, every field zero-padded;
      microseconds are not written. */
  function FormatTimestamp(t: Timestamp): (s: string)
    ensures |s| == 19
  {
    Pad(t.year, 4) + ("-" + (Pad(t.month, 2) + ("-" + (Pad(t.day, 2) + (" " +
    (Pad(t.hour, 2) + (":" + (Pad(t.minute, 2) + (":" + Pad(t.second, 2))))))))))
  }

  /** The written time is `YYYY-MM-DD HH:MM:SS`: zero-padded digit fields holding the
      year, month, day, hour, minute and second, separated by '-', '-', ' ', ':' and ':'. */
  lemma FormatTimestampLayout(t: Timestamp)
    ensures var s := FormatTimestamp(t);
      s[4] == '-' && s[7] == '-' && s[10] == ' ' && s[13] == ':' && s[16] == ':'
      && AllDigits(s[..4]) && Value(s[..4]) == t.year
      && AllDigits(s[5..7]) && Value(s[5..7]) == t.month
      && AllDigits(s[8..10]) && Value(s[8..10]) == t.day
      && AllDigits(s[11..13]) && Value(s[11..13]) == t.hour
      && AllDigits(s[14..16]) && Value(s[14..16]) == t.minute
      && AllDigits(s[17..]) && Value(s[17..]) == t.second
  {
    var s := FormatTimestamp(t);
    assert s[..4] == Pad(t.year, 4);
    assert s[5..7] == Pad(t.month, 2);
    assert s[8..10] == Pad(t.day, 2);
    assert s[11..13] == Pad(t.hour, 2);
    assert s[14..16] == Pad(t.minute, 2);
    assert s[17..] == Pad(t.second, 2);
    ValueOfPad(t.year, 4);
    ValueOfPad(t.month, 2);
    ValueOfPad(t.day, 2);
    ValueOfPad(t.hour, 2);
    ValueOfPad(t.minute, 2);
    ValueOfPad(t.second, 2);
  }

  /** `strftime('%Y-%m-%d %H:%M')`: a time as the menu asks users to type it. */
  function FormatMinutes(t: Timestamp): (s: string)
    ensures |s| == 16
  {
    Pad(t.year, 4) + ("-" + (Pad(t.month, 2) + ("-" + (Pad(t.day, 2) + (" " +
    (Pad(t.hour, 2) + (":" + Pad(t.minute, 2))))))))
  }

  /** A field of one or two ASCII digits that the next character, or the end of the text,
      delimits; its value and the rest of the text. The `%m`, `%H`, `%M` and `%S` patterns
      of `strptime` accept one or two digits, each followed here by a non-digit. */
  function SplitField(s: string): (r: Option<(nat, string)>)
    ensures r.Some? ==> r.value.0 < 100
  {
    if |s| >= 2 && IsDigit(s[0]) && IsDigit(s[1]) then
      if |s| == 2 || !IsDigit(s[2]) then ValueBound(s[..2]); Some((Value(s[..2]), s[2..])) else None
    else if |s| >= 1 && IsDigit(s[0]) then Some((DigitValue(s[0]), s[1..]))
    else None
  }

  /** What remains after the longest run of leading whitespace. */
  function SkipSpaces(s: string): (r: string)
    ensures r == [] || !IsSpace(r[0])
  {
    if s != [] && IsSpace(s[0]) then SkipSpaces(s[1..]) else s
  }

  /** `%Y-`: exactly four digits and a dash; the year and the text after the dash. */
  function ParseYear(s: string): Option<(nat, string)>
  {
    if |s| >= 5 && AllDigits(s[..4]) && s[4] == '-' then Some((Value(s[..4]), s[5..])) else None
  }

  /** `%m-`, `%H:` or `%M:`: a field within `lo..hi` and the separator after it; the value
      and the text after the separator. */
  function ParseFieldThen(s: string, lo: nat, hi: nat, sep: char): Option<(nat, string)>
  {
    match SplitField(s)
    case None => None
    case Some((v, rest)) =>
      if lo <= v <= hi && rest != [] && rest[0] == sep then Some((v, rest[1..])) else None
  }

  /** `%d` followed by the `\s+` that the space of the format becomes: a day within 1..31,
      written as one or two digits or as a space and one digit, then at least one
      whitespace character; the day and the text after the whitespace. */
  function ParseDay(s: string): Option<(nat, string)>
  {
    var field: Option<(nat, string)> :=
      if |s| >= 2 && s[0] == ' ' then
        if IsDigit(s[1]) && (|s| == 2 || !IsDigit(s[2])) then Some((DigitValue(s[1]), s[2..])) else None
      else SplitField(s);
    match field
    case None => None
    case Some((v, rest)) =>
      if 1 <= v <= 31 && rest != [] && IsSpace(rest[0]) then Some((v, SkipSpaces(rest))) else None
  }

  /** `%S` at the end of the pattern: a field within 0..61 and nothing after it. */
  function ParseSecond(s: string): Option<nat>
  {
    match SplitField(s)
    case None => None
    case Some((v, rest)) => if v <= 61 && rest == [] then Some(v) else None
  }

  /** `datetime.strptime(text, '%Y-%m-%d %H:%M:%S')`: None where it raises ValueError.
      The text must match the whole pattern, field by field, and the fields must then form
      a valid date-time (this rejects year 0, a day past the end of its month and seconds
      60 and 61). */
  function ParseTimestamp(text: string): (r: Option<Timestamp>)
    ensures r.Some? ==> r.value.microsecond == 0
  {
    match ParseYear(text)
    case None => None
    case Some((year, r1)) =>
      match ParseFieldThen(r1, 1, 12, '-')
      case None => None
      case Some((month, r2)) =>
        match ParseDay(r2)
        case None => None
        case Some((day, r3)) =>
          match ParseFieldThen(r3, 0, 23, ':')
          case None => None
          case Some((hour, r4)) =>
            match ParseFieldThen(r4, 0, 59, ':')
            case None => None
            case Some((minute, r5)) =>
              match ParseSecond(r5)
              case None => None
              case Some(second) =>
                var t := DateTime(year, month, day, hour, minute, second, 0);
                if t.Valid() then Some(t) else None
  }

  /** The time with its sub-second part dropped. */
  function DropMicroseconds(t: Timestamp): (w: Timestamp)
  {
    t.(microsecond := 0)
  }

  lemma SplitFieldOfPad(n: nat, tail: string)
    requires n < 100
    requires tail == [] || !IsDigit(tail[0])
    ensures SplitField(Pad(n, 2) + tail) == Some((n, tail))
  {
    var s := Pad(n, 2) + tail;
    assert s[..2] == Pad(n, 2);
    assert s[2..] == tail;
    ValueOfPad(n, 2);
  }

  lemma ParseYearOfPad(y: nat, tail: string)
    requires y < 10000
    ensures ParseYear(Pad(y, 4) + ("-" + tail)) == Some((y, tail))
  {
    var s := Pad(y, 4) + ("-" + tail);
    assert s[..4] == Pad(y, 4);
    assert s[5..] == tail;
    ValueOfPad(y, 4);
  }

  lemma ParseFieldThenOfPad(n: nat, lo: nat, hi: nat, sep: char, sepText: string, tail: string)
    requires lo <= n <= hi < 100
    requires sepText == [sep] && !IsDigit(sep)
    ensures ParseFieldThen(Pad(n, 2) + (sepText + tail), lo, hi, sep) == Some((n, tail))
  {
    SplitFieldOfPad(n, sepText + tail);
    assert (sepText + tail)[1..] == tail;
  }

  lemma ParseDayOfPad(d: nat, tail: string)
    requires 1 <= d <= 31
    requires tail == [] || !IsSpace(tail[0])
    ensures ParseDay(Pad(d, 2) + (" " + tail)) == Some((d, tail))
  {
    var s := Pad(d, 2) + (" " + tail);
    assert s[0] == Pad(d, 2)[0] && IsDigit(s[0]);
    SplitFieldOfPad(d, " " + tail);
    assert (" " + tail)[1..] == tail;
    assert SkipSpaces(" " + tail) == SkipSpaces(tail) == tail;
  }

  lemma ParseSecondOfPad(n: nat)
    requires n < 60
    ensures ParseSecond(Pad(n, 2)) == Some(n)
  {
    SplitFieldOfPad(n, []);
    assert Pad(n, 2) + [] == Pad(n, 2);
  }

  /** Saving then loading a time keeps it to the second: `strptime` reads back what
      `strftime` wrote, with the microseconds set to zero. */
  lemma ParseFormat(t: Timestamp)
    ensures ParseTimestamp(FormatTimestamp(t)) == Some(DropMicroseconds(t))
  {
    var r5 := Pad(t.second, 2);
    var r4 := Pad(t.minute, 2) + (":" + r5);
    var r3 := Pad(t.hour, 2) + (":" + r4);
    var r2 := Pad(t.day, 2) + (" " + r3);
    var r1 := Pad(t.month, 2) + ("-" + r2);
    ParseYearOfPad(t.year, r1);
    ParseFieldThenOfPad(t.month, 1, 12, '-', "-", r2);
    ParseDayOfPad(t.day, r3);
    ParseFieldThenOfPad(t.hour, 0, 23, ':', ":", r4);
    ParseFieldThenOfPad(t.minute, 0, 59, ':', ":", r5);
    ParseSecondOfPad(t.second);
  }

  /** A time typed as the menu asks (`%Y-%m-%d %H:%M`, without seconds) is refused by the
      storage format. */
  lemma MinutesOnlyRejected(t: Timestamp)
    ensures ParseTimestamp(FormatMinutes(t)) == None
  {
    var r5: string := [];
    var r4 := Pad(t.minute, 2);
    var r3 := Pad(t.hour, 2) + (":" + r4);
    var r2 := Pad(t.day, 2) + (" " + r3);
    var r1 := Pad(t.month, 2) + ("-" + r2);
    ParseYearOfPad(t.year, r1);
    ParseFieldThenOfPad(t.month, 1, 12, '-', "-", r2);
    ParseDayOfPad(t.day, r3);
    ParseFieldThenOfPad(t.hour, 0, 23, ':', ":", r4);
    SplitFieldOfPad(t.minute, r5);
    assert r4 + r5 == r4;
  }
}
