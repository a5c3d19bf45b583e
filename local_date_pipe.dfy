/** The web client's `localDate` pipe: a date string from the API is
    normalised to ISO 8601 with a zone, parsed, and formatted in the
    interface language's locale. The parser and Angular's DatePipe are
    parameters. */
module LocalDatePipe {
  import opened Wrappers
  import opened Text
  import DateUtils

  /** The formatting locale for the interface language: Arabic formats as
      Saudi Arabic, every other language as US English. */
  function LocaleString(locale: string): (r: string)
    ensures r == "ar-SA" <==> locale == "ar"
    ensures r == "en-US" <==> locale != "ar"
  {
    if locale == "ar" then "ar-SA" else "en-US"
  }

  /** transform's normalisation: the first space becomes 'T', and a string
      without a zone is given a 'Z'. */
  function Normalise(value: string): (r: string)
    ensures DateUtils.HasTimezone(r)
    ensures r == DateUtils.DateInput(ReplaceFirst(value, " ", "T"))
  {
    var normalized := ReplaceFirst(value, " ", "T");
    if DateUtils.HasTimezone(normalized) then normalized
    else if !EndsWith(normalized, "Z") then normalized + "Z"
    else normalized
  }

  /** A string with a zone and no space is parsed as it came. */
  lemma ZonedStringsKept(value: string)
    requires DateUtils.HasTimezone(value) && !(' ' in value)
    ensures Normalise(value) == value
  {
    forall i | 0 <= i <= |value| - 1
      ensures !OccursAt(value, " ", i)
    {
      assert value[i..i + 1][0] == value[i];
    }
    ReplaceFirstAbsent(value, " ", "T");
  }

  /** The date pipe and utcToLocalDate zone every string without a space
      alike; on a string whose zone is a 'Z' the pipe also agrees with
      utcToLocalDate as written. */
  lemma AgreesWithUtcToLocalDate(value: string)
    requires !(' ' in value)
    ensures Normalise(value) == DateUtils.DateInput(value)
    ensures 'Z' in value ==> Normalise(value) == DateUtils.DateInputAsWritten(value)
  {
    forall i | 0 <= i <= |value| - 1
      ensures !OccursAt(value, " ", i)
    {
      assert value[i..i + 1][0] == value[i];
    }
    ReplaceFirstAbsent(value, " ", "T");
  }

  /** Only the first space becomes 'T': the rest of the value is kept, and
      at most a 'Z' is added after it. */
  lemma FirstSpaceOnly(value: string)
    requires Contains(value, " ")
    ensures var k := IndexOf(value, " ");
      && |value| <= |Normalise(value)| <= |value| + 1
      && Normalise(value)[..|value|] == value[..k] + "T" + value[k + 1..]
  {
    ReplaceFirstPresent(value, " ", "T");
  }

  /** A value as the database prints it, with a space between date and time
      and no zone, becomes an ISO 8601 UTC time. */
  lemma SpaceSeparatedValue()
    ensures Normalise("2024-01-01 12:00:00") == "2024-01-01T12:00:00Z"
  {
    var s := "2024-01-01 12:00:00";
    assert OccursAt(s, " ", 10);
    forall j | 0 <= j < 10
      ensures !OccursAt(s, " ", j)
    {
      assert s[j..j + 1][0] == s[j];
    }
    assert IndexOf(s, " ") == 10;
    var n := "2024-01-01T12:00:00";
    assert s[..10] + "T" + s[11..] == n;
    assert !('Z' in n) && n[|n| - 6] == ':';
  }

  /** transform: null for a missing or empty value and for a date that does
      not parse; otherwise the date formatted in the current language's
      locale, or, when that formatting throws, in US English. A failure of
      the fallback too is passed on to the caller. `parse` is None for an
      invalid Date; `datePipe(locale, date, format)` fails where DatePipe
      throws. */
  function Transform<D>(value: Option<string>, format: string, locale: string,
                        parse: string -> Option<D>,
                        datePipe: (string, D, string) -> Result<string, string>): (r: Result<Option<string>, string>)
    ensures value.None? || value.value == "" ==> r == Success(None)
    ensures value.Some? && value.value != "" && parse(Normalise(value.value)).None? ==> r == Success(None)
    ensures r.Success? && r.value.Some?
        ==> value.Some? && value.value != "" && parse(Normalise(value.value)).Some?
    ensures r.Success? && r.value.Some? ==> var d := parse(Normalise(value.value)).value;
        || datePipe(LocaleString(locale), d, format) == Success(r.value.value)
        || (datePipe(LocaleString(locale), d, format).Failure? && datePipe("en-US", d, format) == Success(r.value.value))
    ensures r.Failure? ==> value.Some? && parse(Normalise(value.value)).Some?
    ensures r.Failure? ==> var d := parse(Normalise(value.value)).value;
        && datePipe(LocaleString(locale), d, format).Failure?
        && datePipe("en-US", d, format) == Failure(r.error)
  {
    if value.None? || value.value == "" then Success(None)
    else
      var date := parse(Normalise(value.value));
      if date.None? then Success(None)
      else
        var localeString := LocaleString(locale);
        match datePipe(localeString, date.value, format)
        case Success(text) => Success(Some(text))
        case Failure(_) =>
          match datePipe("en-US", date.value, format)
          case Success(text) => Success(Some(text))
          case Failure(e) => Failure(e)
  }

  /** In US English the fallback repeats the same formatting, so a date
      that fails to format there fails the pipe. */
  lemma EnglishHasNoFallback<D>(value: string, format: string, parse: string -> Option<D>,
                                datePipe: (string, D, string) -> Result<string, string>)
    requires value != "" && parse(Normalise(value)).Some?
    requires datePipe("en-US", parse(Normalise(value)).value, format).Failure?
    ensures Transform(Some(value), format, "en", parse, datePipe).Failure?
  {
  }

  /** The pipe keeps the formatting locale of the interface language; the
      value it keeps follows every change the locale service announces. */
  class LocalDatePipe {
    var currentLocale: string

    constructor(serviceLocale: string)
      ensures currentLocale == LocaleString(serviceLocale)
    {
      currentLocale := LocaleString(serviceLocale);
    }

    /** The locale service announced a new language. */
    method LocaleChanged(locale: string)
      modifies this
      ensures currentLocale == LocaleString(locale)
      ensures currentLocale == "ar-SA" || currentLocale == "en-US"
    {
      currentLocale := if locale == "ar" then "ar-SA" else "en-US";
    }
  }
}
