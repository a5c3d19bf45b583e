/** The web client's date helpers: how a date string from the API is given
    a time zone before it is parsed, and which fields a formatted date
    shows. Parsing and the locale's formatting are parameters. */
module DateUtils {
  import opened Wrappers
  import opened Text

  predicate IsAsciiDigit(c: char) {
    '0' <= c <= '9'
  }

  /** The string ends in a UTC offset: `/[+-]\d{2}:\d{2}$/`. */
  predicate EndsWithOffset(s: string) {
    |s| >= 6 && (s[|s| - 6] == '+' || s[|s| - 6] == '-')
    && IsAsciiDigit(s[|s| - 5]) && IsAsciiDigit(s[|s| - 4]) && s[|s| - 3] == ':'
    && IsAsciiDigit(s[|s| - 2]) && IsAsciiDigit(s[|s| - 1])
  }

  /** An ISO 8601 string that names its zone: a 'Z' anywhere, or an offset
      at the end. */
  predicate HasTimezone(s: string) {
    'Z' in s || EndsWithOffset(s)
  }

  /** utcToLocalDate's test for zone information, as written: a 'Z', a '+',
      or a '-' in a string longer than 19 characters. */
  predicate LooksZonedAsWritten(s: string) {
    'Z' in s || '+' in s || ('-' in s && |s| > 19)
  }

  /** The string utcToLocalDate hands to the Date constructor: a string that
      looks zoned as it is, any other with 'Z' appended. */
  function DateInputAsWritten(s: string): (r: string)
    ensures LooksZonedAsWritten(s) ==> r == s
    ensures !LooksZonedAsWritten(s) ==> r == s + "Z" && 'Z' in r
  {
    if LooksZonedAsWritten(s) then s else s + "Z"
  }

  /** Appending happens at most once: the string handed over is handed over
      unchanged the second time. */
  lemma DateInputAsWrittenIdempotent(s: string)
    ensures DateInputAsWritten(DateInputAsWritten(s)) == DateInputAsWritten(s)
  {
    if !LooksZonedAsWritten(s) {
      assert (s + "Z")[|s|] == 'Z';
    }
  }

  /** utcToLocalDate: null, undefined and '' give null; any other string the
      Date it denotes, which `parse` computes from the string zoned by the
      test as written (an invalid date is a Date too). */
  function UtcToLocalDate<D>(value: Option<string>, parse: string -> D): (r: Option<D>)
    ensures r.None? <==> value.None? || value.value == ""
    ensures r.Some? ==> r.value == parse(DateInputAsWritten(value.value))
  {
    if value.None? || value.value == "" then None else Some(parse(DateInputAsWritten(value.value)))
  }

  /** utcToLocalDate agrees with the intended zone test on every string
      that names its zone by a 'Z' and on every string with no sign at
      all. */
  lemma UtcToLocalDateAsIntended<D>(value: string, parse: string -> D)
    requires value != "" && ('Z' in value || (!('+' in value) && !('-' in value)))
    ensures UtcToLocalDate(Some(value), parse) == Some(parse(DateInput(value)))
  {
    if !('Z' in value) && |value| >= 6 {
      assert value[|value| - 6] in value;
    }
  }

  /** The zone test the evidently intended behaviour calls for: the one the
      date pipe uses, a 'Z' or a trailing UTC offset. */
  function DateInput(s: string): (r: string)
    ensures HasTimezone(r)
    ensures HasTimezone(s) ==> r == s
    ensures !HasTimezone(s) ==> r == s + "Z"
  {
    if HasTimezone(s) then s else assert (s + "Z")[|s|] == 'Z'; s + "Z"
  }

  lemma DateInputIdempotent(s: string)
    ensures DateInput(DateInput(s)) == DateInput(s)
  {
  }

  /** A zone-less time with fractional seconds is longer than 19 characters
      and holds the date's '-', so it is taken as zoned and parsed as local
      time; the same time without fractions is given its 'Z'. The intended
      test gives both a 'Z'. */
  lemma FractionalSecondsStayZoneless()
    ensures DateInputAsWritten("2024-01-01T12:00:00.123") == "2024-01-01T12:00:00.123"
    ensures !HasTimezone("2024-01-01T12:00:00.123")
    ensures DateInputAsWritten("2024-01-01T12:00:00") == "2024-01-01T12:00:00Z"
    ensures DateInput("2024-01-01T12:00:00.123") == "2024-01-01T12:00:00.123Z"
  {
    var s := "2024-01-01T12:00:00.123";
    assert s[4] == '-';
    assert s[|s| - 6] == '0';
    var t := "2024-01-01T12:00:00";
    assert |t| == 19 && !('+' in t) && !('Z' in t);
  }

  /** The intended test and the written one agree on every string that
      names its zone by a 'Z'. */
  lemma AgreeOnZuluStrings(s: string)
    requires 'Z' in s
    ensures DateInputAsWritten(s) == DateInput(s) == s
  {
  }

  // ---------------------------------------------------------------------------
  // formatLocalDate

  /** A field of Intl.DateTimeFormatOptions: shown as a number, as a short
      name, or not shown. */
  datatype FieldStyle = Numeric | ShortName | Omitted

  datatype DateTimeFormatOptions = DateTimeFormatOptions(
    year: FieldStyle, month: FieldStyle, day: FieldStyle,
    hour: FieldStyle, minute: FieldStyle, second: FieldStyle, hour12: bool)

  /** The options formatLocalDate builds from its format word: a short month
      name for 'short', hour and minute for 'time' or 'short', seconds for
      'time' only, always a 12-hour clock. */
  function FormatOptions(format: string): (o: DateTimeFormatOptions)
    ensures o.year == Numeric && o.day == Numeric && o.hour12
    ensures o.month == ShortName <==> Contains(format, "short")
    ensures o.month != Omitted
    ensures o.hour == o.minute
    ensures o.hour != Omitted <==> Contains(format, "time") || Contains(format, "short")
    ensures o.second != Omitted <==> Contains(format, "time")
    ensures o.hour == Omitted || o.hour == Numeric
    ensures o.second == Omitted || o.second == Numeric
  {
    var time := Contains(format, "time");
    var short := Contains(format, "short");
    DateTimeFormatOptions(
      Numeric,
      if short then ShortName else Numeric,
      Numeric,
      if time || short then Numeric else Omitted,
      if time || short then Numeric else Omitted,
      if time then Numeric else Omitted,
      true)
  }

  /** The default format shows the time to the minute, with a short month. */
  lemma ShortFormat()
    ensures FormatOptions("short") == DateTimeFormatOptions(Numeric, ShortName, Numeric, Numeric, Numeric, Omitted, true)
  {
    assert OccursAt("short", "short", 0);
    forall i | 0 <= i <= |"short"| - |"time"|
      ensures !OccursAt("short", "time", i)
    {
      assert "short"[i] != 't';
      assert "time"[0] == 't';
    }
  }

  /** formatLocalDate: '' when there is no date, otherwise the date
      utcToLocalDate gives, formatted with the options; `toLocaleString` is
      the browser's formatting in its own locale. */
  function FormatLocalDate<D>(value: Option<string>, format: string, parse: string -> D,
                              toLocaleString: (D, DateTimeFormatOptions) -> string): (r: string)
    ensures value.None? || value.value == "" ==> r == ""
    ensures value.Some? && value.value != ""
        ==> r == toLocaleString(parse(DateInputAsWritten(value.value)), FormatOptions(format))
  {
    var date := UtcToLocalDate(value, parse);
    if date.None? then "" else toLocaleString(date.value, FormatOptions(format))
  }

  /** With a formatter that never answers '', formatLocalDate answers ''
      exactly for a missing or empty date string. */
  lemma EmptyOnlyWithoutDate<D>(value: Option<string>, format: string, parse: string -> D,
                                toLocaleString: (D, DateTimeFormatOptions) -> string)
    requires forall d, o :: toLocaleString(d, o) != ""
    ensures FormatLocalDate(value, format, parse, toLocaleString) == "" <==> value.None? || value.value == ""
  {
  }
}
