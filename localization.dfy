/**
  The localisation service of `services/i18n.go`: a table of message
  catalogues keyed by language, lookups with a two-step fallback, and the
  language negotiation helpers.

  The locale directory is given as its listing: reading the directory may
  fail, and each entry carries the outcome of reading its file and decoding
  it as a JSON object of strings.
 */
module Localization {
  import opened Wrappers
  import opened Strings

  type Messages = map<string, string>

  type Table = map<string, Messages>

  /** What reading one file of the locale directory and decoding it gave. */
  datatype LocaleFile =
    | Unreadable(error: string)     // the file could not be read
    | Malformed(error: string)      // its contents are not a JSON object of strings
    | Decoded(messages: Messages)

  datatype DirEntry = DirEntry(name: string, isDir: bool, file: LocaleFile)

  /** Only plain files whose name ends in ".json" are catalogues. */
  predicate IsCatalog(e: DirEntry) {
    !e.isDir && HasSuffix(e.name, ".json")
  }

  /** The language a catalogue registers: its file name without ".json". */
  function LangOf(e: DirEntry): string {
    TrimSuffix(e.name, ".json")
  }

  /** The table the construction loop has built after the listed entries:
      catalogues are registered in listing order, and the first catalogue
      that cannot be read or decoded aborts with its error. */
  function LoadTable(entries: seq<DirEntry>): Result<Table, string>
    decreases |entries|
  {
    if entries == [] then Success(map[])
    else
      match LoadTable(entries[..|entries| - 1])
      case Failure(err) => Failure(err)
      case Success(table) =>
        var e := entries[|entries| - 1];
        if !IsCatalog(e) then Success(table)
        else
          match e.file
          case Unreadable(err) => Failure(err)
          case Malformed(err) => Failure(err)
          case Decoded(messages) => Success(table[LangOf(e) := messages])
  }

  /** The entry at `i` is a catalogue whose file did not load. */
  predicate BadCatalogAt(entries: seq<DirEntry>, i: int)
    requires 0 <= i < |entries|
  {
    IsCatalog(entries[i]) && !entries[i].file.Decoded?
  }

  /** The table has exactly one language per catalogue name, and the
      catalogue stored for a language is the last one listed under that
      name: a later catalogue of the same language overwrites an earlier. */
  lemma {:induction false} LoadedLanguages(entries: seq<DirEntry>)
    requires LoadTable(entries).Success?
    ensures forall lang :: lang in LoadTable(entries).value <==>
              exists i :: 0 <= i < |entries| && IsCatalog(entries[i]) && LangOf(entries[i]) == lang
    ensures forall lang :: lang in LoadTable(entries).value ==>
              exists i :: && LastCatalogOf(entries, lang, i)
                          && entries[i].file == Decoded(LoadTable(entries).value[lang])
    decreases |entries|
  {
    if entries != [] {
      var n := |entries| - 1;
      var init := entries[..n];
      LoadedLanguages(init);
      assert forall i :: 0 <= i < |init| ==> init[i] == entries[i];
      var table := LoadTable(entries).value;
      forall lang | lang in table
        ensures exists i :: LastCatalogOf(entries, lang, i) && entries[i].file == Decoded(table[lang])
      {
        if IsCatalog(entries[n]) && LangOf(entries[n]) == lang {
          assert LastCatalogOf(entries, lang, n);
        } else {
          var i :| LastCatalogOf(init, lang, i) && init[i].file == Decoded(LoadTable(init).value[lang]);
          assert LastCatalogOf(entries, lang, i);
        }
      }
    }
  }

  /** The entry at `i` is the last catalogue of the listing named `lang`. */
  predicate LastCatalogOf(entries: seq<DirEntry>, lang: string, i: int) {
    && 0 <= i < |entries| && IsCatalog(entries[i]) && LangOf(entries[i]) == lang
    && forall j :: i < j < |entries| ==> !(IsCatalog(entries[j]) && LangOf(entries[j]) == lang)
  }

  /** Construction fails exactly when some catalogue did not load, and then
      with the error of the first such catalogue. */
  lemma {:induction false} LoadFailure(entries: seq<DirEntry>)
    ensures LoadTable(entries).Failure? <==> exists i :: 0 <= i < |entries| && BadCatalogAt(entries, i)
    ensures LoadTable(entries).Failure? ==>
              exists i :: && 0 <= i < |entries| && BadCatalogAt(entries, i)
                          && (forall j :: 0 <= j < i ==> !BadCatalogAt(entries, j))
                          && LoadTable(entries).error == entries[i].file.error
    decreases |entries|
  {
    if entries != [] {
      var n := |entries| - 1;
      var init := entries[..n];
      LoadFailure(init);
      assert forall i :: 0 <= i < n ==> init[i] == entries[i];
      assert forall i :: 0 <= i < n ==> (BadCatalogAt(init, i) <==> BadCatalogAt(entries, i));
      if LoadTable(init).Failure? {
        var i :| && 0 <= i < n && BadCatalogAt(init, i)
                 && (forall j :: 0 <= j < i ==> !BadCatalogAt(init, j))
                 && LoadTable(init).error == init[i].file.error;
        assert BadCatalogAt(entries, i);
      } else if BadCatalogAt(entries, n) {
        assert forall j :: 0 <= j < n ==> !BadCatalogAt(entries, j);
      } else {
        assert forall j :: 0 <= j < |entries| ==> !BadCatalogAt(entries, j);
      }
    }
  }

  /** A failure in a prefix of the listing is the failure of the whole. */
  lemma {:induction false} PrefixFailure(entries: seq<DirEntry>, k: nat)
    requires k <= |entries| && LoadTable(entries[..k]).Failure?
    ensures LoadTable(entries) == LoadTable(entries[..k])
    decreases |entries| - k
  {
    if k < |entries| {
      assert entries[..k + 1][..k] == entries[..k];
      PrefixFailure(entries, k + 1);
    } else {
      assert entries[..k] == entries;
    }
  }

  class I18n {
    var translations: Table
    const defaultLang: string

    constructor (defaultLang: string)
      ensures this.defaultLang == defaultLang && translations == map[]
    {
      this.defaultLang := defaultLang;
      translations := map[];
    }

    /** `T`: the message for `key` in `lang`, else in the default language,
        else the key itself. */
    function T(lang: string, key: string): (msg: string)
      reads this
      ensures lang in translations && key in translations[lang] ==> msg == translations[lang][key]
      ensures !(lang in translations && key in translations[lang])
              && defaultLang in translations && key in translations[defaultLang]
              ==> msg == translations[defaultLang][key]
      ensures !(lang in translations && key in translations[lang])
              && !(defaultLang in translations && key in translations[defaultLang])
              ==> msg == key
    {
      if lang in translations && key in translations[lang] then translations[lang][key]
      else if defaultLang in translations && key in translations[defaultLang] then translations[defaultLang][key]
      else key
    }

    /** `GetTranslator`: `T` with the language fixed; it reads the
        translator's table when called. */
    function GetTranslator(lang: string): (f: string ~> string)
      reads this
      ensures forall key :: f.requires(key) && f.reads(key) == {this}
      ensures forall key :: f(key) == T(lang, key)
    {
      key reads this => T(lang, key)
    }

    /** A language without a catalogue reads entirely from the default
        language. */
    lemma UnknownLanguageFallsBack(lang: string, key: string)
      requires lang !in translations
      ensures T(lang, key) == T(defaultLang, key)
    {
    }
  }

  /** `NewI18n`: reads the directory, then registers each catalogue in
      listing order, skipping directories and other files. */
  method NewI18n(listing: Result<seq<DirEntry>, string>, defaultLang: string) returns (r: Result<I18n, string>)
    ensures listing.Failure? ==> r == Failure(listing.error)
    ensures listing.Success? && LoadTable(listing.value).Failure? ==> r == Failure(LoadTable(listing.value).error)
    ensures listing.Success? && LoadTable(listing.value).Success? ==>
              && r.Success? && fresh(r.value)
              && r.value.translations == LoadTable(listing.value).value
              && r.value.defaultLang == defaultLang
  {
    var i18n := new I18n(defaultLang);
    if listing.Failure? {
      return Failure(listing.error);
    }
    var entries := listing.value;
    for k := 0 to |entries|
      invariant LoadTable(entries[..k]) == Success(i18n.translations)
    {
      assert entries[..k + 1][..k] == entries[..k];
      var entry := entries[k];
      if entry.isDir || !HasSuffix(entry.name, ".json") {
        continue;
      }
      var lang := TrimSuffix(entry.name, ".json");
      match entry.file {
        case Unreadable(err) =>
          PrefixFailure(entries, k + 1);
          return Failure(err);
        case Malformed(err) =>
          PrefixFailure(entries, k + 1);
          return Failure(err);
        case Decoded(messages) =>
          i18n.translations := i18n.translations[lang := messages];
      }
    }
    assert entries[..|entries|] == entries;
    r := Success(i18n);
  }

  /** The tag a part of an Accept-Language header names: the text before
      its first ';' with white space trimmed. */
  function PartTag(part: string): string {
    TrimSpace(Split(part, ';')[0])
  }

  /** The supported language a tag selects, if any. */
  function Selects(tag: string): (lang: Option<string>)
    ensures lang == Some("ja") <==> HasPrefix(tag, "ja")
    ensures lang == Some("en") <==> !HasPrefix(tag, "ja") && HasPrefix(tag, "en")
    ensures lang == None <==> !HasPrefix(tag, "ja") && !HasPrefix(tag, "en")
  {
    if HasPrefix(tag, "ja") then Some("ja")
    else if HasPrefix(tag, "en") then Some("en")
    else None
  }

  /** The language one comma-separated part of the header selects. */
  function PartChoice(part: string): Option<string> {
    Selects(PartTag(part))
  }

  /** The scan over the comma-separated parts: the first part that selects
      a language decides; without one the answer is "en". */
  function FirstSelected(parts: seq<string>): (lang: string)
    ensures lang == "en" || lang == "ja"
    decreases |parts|
  {
    if parts == [] then "en"
    else
      match PartChoice(parts[0])
      case Some(l) => l
      case None => FirstSelected(parts[1..])
  }

  /** `ParseAcceptLanguage`: always "en" or "ja"; the empty header is "en". */
  function ParseAcceptLanguage(header: string): (lang: string)
    ensures lang == "en" || lang == "ja"
    ensures header == "" ==> lang == "en"
  {
    if header == "" then "en" else FirstSelected(Split(header, ','))
  }

  /** The scan returns the choice of the first part that selects anything,
      so q-values and later parts never reorder the outcome. */
  lemma {:induction false} FirstMatchDecides(parts: seq<string>, i: int)
    requires 0 <= i < |parts| && PartChoice(parts[i]) != None
    requires forall j :: 0 <= j < i ==> PartChoice(parts[j]) == None
    ensures Some(FirstSelected(parts)) == PartChoice(parts[i])
    decreases i
  {
    if i > 0 {
      assert PartChoice(parts[0]) == None;
      assert forall j :: 0 <= j < i - 1 ==> parts[1..][j] == parts[j + 1];
      FirstMatchDecides(parts[1..], i - 1);
    }
  }

  /** When no part selects a supported language the answer is "en". */
  lemma {:induction false} NoMatchIsEnglish(parts: seq<string>)
    requires forall j :: 0 <= j < |parts| ==> PartChoice(parts[j]) == None
    ensures FirstSelected(parts) == "en"
    decreases |parts|
  {
    if parts != [] {
      assert PartChoice(parts[0]) == None;
      assert forall j :: 0 <= j < |parts| - 1 ==> parts[1..][j] == parts[j + 1];
      NoMatchIsEnglish(parts[1..]);
    }
  }

  /** A part with no parameters and no surrounding space is its own tag. */
  lemma PlainTag(tag: string)
    requires ';' !in tag
    requires tag != [] && !IsSpace(tag[0]) && !IsSpace(tag[|tag| - 1])
    ensures PartTag(tag) == tag
  {
    assert Split(tag, ';') == [tag];
    assert TrimLeft(tag) == tag;
    assert TrimRight(tag) == tag;
  }

  /** The first comma-separated part of `first + "," + rest` is `first`. */
  lemma SplitFirst(first: string, rest: string)
    requires ',' !in first
    ensures Split(first + "," + rest, ',')[0] == first
    ensures Split(first + "," + rest, ',')[1..] == Split(rest, ',')
  {
    var h := first + "," + rest;
    assert h[|first|] == ',';
    assert h[..|first|] == first;
    assert IndexOf(h, ',') == |first|;
    assert h[|first| + 1..] == rest;
  }

  /** A header led by a part that selects a language gets that language. */
  lemma LeadingPartDecides(first: string, rest: string)
    requires ',' !in first && PartChoice(first) != None
    ensures Some(ParseAcceptLanguage(first + "," + rest)) == PartChoice(first)
  {
    SplitFirst(first, rest);
  }

  /** A part without parameters, commas or surrounding space. */
  predicate PlainPart(part: string) {
    && part != []
    && ',' !in part && ';' !in part
    && !IsSpace(part[0]) && !IsSpace(part[|part| - 1])
  }

  /** Header tests "ja", "ja-JP", "en", "en-US", "ja,en;q=0.9",
      "en,ja;q=0.9" and "ja-JP,ja;q=0.9,en;q=0.8": a plain part naming a
      supported language decides the header, alone or followed by any
      other parts, later q-values included. */
  lemma SupportedLeadDecides(lang: string, first: string, rest: string)
    requires lang in GetSupportedLanguages()
    requires PlainPart(first) && HasPrefix(first, lang)
    ensures ParseAcceptLanguage(first) == lang
    ensures ParseAcceptLanguage(first + "," + rest) == lang
  {
    PlainTag(first);
    LeadingPartDecides(first, rest);
    assert IndexOf(first, ',') == -1;
    assert Split(first, ',') == [first];
  }

  /** `NormalizeLang`: a supported language is kept, anything else is "en". */
  function NormalizeLang(lang: string): (r: string)
    ensures r in GetSupportedLanguages()
    ensures r == lang <==> lang in GetSupportedLanguages()
    ensures lang !in GetSupportedLanguages() ==> r == "en"
  {
    if lang == "ja" || lang == "en" then lang else "en"
  }

  /** `GetSupportedLanguages`: English, then Japanese. */
  function GetSupportedLanguages(): seq<string> {
    ["en", "ja"]
  }

  /** Normalising twice is normalising once, every supported language and
      every negotiated language is already normal. */
  lemma NormalizeIdempotent(lang: string, header: string)
    ensures NormalizeLang(NormalizeLang(lang)) == NormalizeLang(lang)
    ensures forall l :: l in GetSupportedLanguages() ==> NormalizeLang(l) == l
    ensures NormalizeLang(ParseAcceptLanguage(header)) == ParseAcceptLanguage(header)
  {
  }
}
