/** The web client's TranslationService: one table per supported locale
    ('en' and 'ar'), the key itself when an entry is missing or empty, and
    `{{name}}` placeholders filled in from a parameter object. The tables'
    contents are a parameter, as is the locale LocaleService reports. */
module WebTranslation {
  import opened Text

  datatype Locale = En | Ar

  type Table = map<string, string>

  /** translate: the entry for `key` in the locale's table, or `key` when
      there is none or it is the empty string (`entry || key`). */
  function Translate(tables: Locale -> Table, locale: Locale, key: string): (r: string)
    ensures key in tables(locale) && tables(locale)[key] != "" ==> r == tables(locale)[key]
    ensures !(key in tables(locale) && tables(locale)[key] != "") ==> r == key
    ensures key != "" ==> r != ""
  {
    var table := tables(locale);
    if key in table && table[key] != "" then table[key] else key
  }

  /** A parameter value: a string, or a number that String() renders. */
  datatype ParamValue = Str(text: string) | Num(n: int)

  function ValueText(v: ParamValue): (r: string)
    ensures v.Str? ==> r == v.text
    ensures v.Num? ==> r == IntToString(v.n)
  {
    match v
    case Str(s) => s
    case Num(n) => IntToString(n)
  }

  /** The placeholder a parameter fills. */
  function Placeholder(name: string): (r: string)
    ensures |r| == |name| + 4 && r[..2] == "{{" && r[|r| - 2..] == "}}"
  {
    "{{" + name + "}}"
  }

  /** The parameters in turn (in Object.keys order), each replacing the first
      occurrence of its placeholder in the text so far. */
  function Substitute(text: string, params: seq<(string, ParamValue)>): string
    decreases |params|
  {
    if |params| == 0 then text
    else Substitute(ReplaceFirst(text, Placeholder(params[0].0), ValueText(params[0].1)), params[1..])
  }

  /** translateWithParams: the translation, then one replacement per
      parameter. */
  method TranslateWithParams(tables: Locale -> Table, locale: Locale, key: string,
                             params: seq<(string, ParamValue)>) returns (translation: string)
    ensures translation == Substitute(Translate(tables, locale, key), params)
  {
    translation := Translate(tables, locale, key);
    ghost var result := Substitute(translation, params);
    var i := 0;
    while i < |params|
      invariant 0 <= i <= |params|
      invariant Substitute(translation, params[i..]) == result
    {
      assert params[i..][1..] == params[i + 1..];
      var (name, value) := params[i];
      translation := ReplaceFirst(translation, Placeholder(name), ValueText(value));
      i := i + 1;
    }
  }

  /** Substituting a list of parameters is substituting its first part, then
      the rest. */
  lemma {:induction false} SubstituteAppend(text: string, a: seq<(string, ParamValue)>, b: seq<(string, ParamValue)>)
    ensures Substitute(text, a + b) == Substitute(Substitute(text, a), b)
    decreases |a|
  {
    if |a| == 0 {
      assert a + b == b;
    } else {
      assert (a + b)[1..] == a[1..] + b;
      SubstituteAppend(ReplaceFirst(text, Placeholder(a[0].0), ValueText(a[0].1)), a[1..], b);
    }
  }

  /** A key with no entry has the parameters substituted into the key text
      itself. */
  lemma UnknownKeyIsFilledIn(tables: Locale -> Table, locale: Locale, key: string,
                             params: seq<(string, ParamValue)>)
    requires key !in tables(locale)
    ensures Substitute(Translate(tables, locale, key), params) == Substitute(key, params)
  {
  }

  /** A parameter whose placeholder is not in the text leaves it unchanged. */
  lemma UnmatchedParameterChangesNothing(text: string, name: string, value: ParamValue)
    requires !Contains(text, Placeholder(name))
    ensures Substitute(text, [(name, value)]) == text
  {
    ReplaceFirstAbsent(text, Placeholder(name), ValueText(value));
  }

  /** A parameter fills the first occurrence of its placeholder and keeps
      the text around it, later occurrences included. */
  lemma ParameterFillsFirstPlaceholder(text: string, name: string, value: ParamValue)
    requires Contains(text, Placeholder(name))
    ensures var k := IndexOf(text, Placeholder(name));
      && 0 <= k && (forall j :: 0 <= j < k ==> !OccursAt(text, Placeholder(name), j))
      && Substitute(text, [(name, value)]) == text[..k] + ValueText(value) + text[k + |name| + 4..]
  {
    ReplaceFirstPresent(text, Placeholder(name), ValueText(value));
  }

  /** Without parameters the text is the translation. */
  lemma NoParametersIsTranslate(tables: Locale -> Table, locale: Locale, key: string)
    ensures Substitute(Translate(tables, locale, key), []) == Translate(tables, locale, key)
  {
  }

  /** Only the first of two equal placeholders is filled, and a placeholder
      with no parameter stays in the text. */
  lemma FirstPlaceholderOnly()
    ensures Substitute("{{n}}/{{n}} {{m}}", [("n", Num(7))]) == "7/{{n}} {{m}}"
  {
    var text := "{{n}}/{{n}} {{m}}";
    assert OccursAt(text, Placeholder("n"), 0);
    assert IndexOf(text, Placeholder("n")) == 0;
    assert IntToString(7) == "7";
  }
}
