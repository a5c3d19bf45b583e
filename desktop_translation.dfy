/** The desktop client's TranslationService: a fixed table per culture
    ("en-US" and "ar-SA"), looked up for the current culture with a fallback
    to a base culture, and the key itself when the table has no entry. The
    tables' contents are a parameter; only their two culture names are
    fixed. */
module DesktopTranslation {

  /** The parts of a CultureInfo the lookup reads. */
  datatype Culture = Culture(name: string, twoLetterLanguage: string)

  type Table = map<string, string>

  /** The table names the service is built with. */
  const CultureNames: set<string> := {"en-US", "ar-SA"}

  /** The table a culture reads: its own when there is one, otherwise
      "ar-SA" for an Arabic culture and "en-US" for every other. */
  function TableFor(translations: map<string, Table>, culture: Culture): (name: string)
    ensures culture.name in translations ==> name == culture.name
    ensures culture.name !in translations && culture.twoLetterLanguage == "ar" ==> name == "ar-SA"
    ensures culture.name !in translations && culture.twoLetterLanguage != "ar" ==> name == "en-US"
    ensures translations.Keys == CultureNames ==> name in translations
  {
    if culture.name in translations then culture.name
    else if culture.twoLetterLanguage == "ar" then "ar-SA" else "en-US"
  }

  /** Translate for a given culture: the entry of its table, or the key. */
  function TranslateIn(translations: map<string, Table>, culture: Culture, key: string): (r: string)
    ensures r == key || exists c :: c in translations && key in translations[c] && r == translations[c][key]
  {
    var name := TableFor(translations, culture);
    if name in translations && key in translations[name] then translations[name][key] else key
  }

  /** A key that no table has is shown as it is, whatever the culture. */
  lemma MissingKeyIsShown(translations: map<string, Table>, culture: Culture, key: string)
    requires forall c :: c in translations ==> key !in translations[c]
    ensures TranslateIn(translations, culture, key) == key
  {
  }

  /** A culture without a table of its own reads exactly what its base
      culture reads. */
  lemma FallbackReadsBaseCulture(translations: map<string, Table>, culture: Culture, key: string)
    requires translations.Keys == CultureNames && culture.name !in CultureNames
    ensures TranslateIn(translations, culture, key)
      == TranslateIn(translations, Culture(if culture.twoLetterLanguage == "ar" then "ar-SA" else "en-US", culture.twoLetterLanguage), key)
  {
  }

  class TranslationService {
    /** The tables; never reassigned. */
    const translations: map<string, Table>
    var currentCulture: Culture

    constructor(tables: map<string, Table>, culture: Culture)
      requires tables.Keys == CultureNames
      ensures translations == tables && currentCulture == culture
    {
      translations := tables;
      currentCulture := culture;
    }

    /** Translate: the current culture's table (or its base culture's) has
        the entry, or the key comes back. It never fails. */
    function Translate(key: string): (r: string)
      reads this
      ensures r == TranslateIn(translations, currentCulture, key)
      ensures var name := TableFor(translations, currentCulture);
        name in translations && key in translations[name] ==> r == translations[name][key]
      ensures var name := TableFor(translations, currentCulture);
        !(name in translations && key in translations[name]) ==> r == key
    {
      var name := TableFor(translations, currentCulture);
      if name in translations then
        var table := translations[name];
        if key in table then table[key] else key
      else key
    }

    /** SetCulture: later lookups read the new culture's table. */
    method SetCulture(culture: Culture)
      modifies this
      ensures currentCulture == culture
      ensures forall key :: Translate(key) == TranslateIn(translations, culture, key)
    {
      currentCulture := culture;
    }
  }
}
