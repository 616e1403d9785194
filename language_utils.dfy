/**
 * Whether two language codes denote the same language: the fixed alias table
 * and the matching rule of `is_language_match` and `has_language_in_set`.
 */
module LanguageUtils {
  import opened Wrappers
  import opened Text

  /** `LANGUAGE_MAPPING`: a primary code and its aliases (itself, ISO 639-2 codes, the English name). */
  const LanguageMapping: map<string, seq<string>> := map[
    "ru" := ["ru", "rus", "russian"],
    "en" := ["en", "eng", "english"],
    "ja" := ["ja", "jpn", "japanese"],
    "de" := ["de", "ger", "deu", "german"],
    "fr" := ["fr", "fre", "fra", "french"],
    "es" := ["es", "spa", "spanish"],
    "it" := ["it", "ita", "italian"],
    "pt" := ["pt", "por", "portuguese"],
    "zh" := ["zh", "chi", "zho", "chinese"],
    "ko" := ["ko", "kor", "korean"],
    "ar" := ["ar", "ara", "arabic"],
    "he" := ["he", "heb", "hebrew"],
    "hi" := ["hi", "hin", "hindi"],
    "th" := ["th", "tha", "thai"],
    "tr" := ["tr", "tur", "turkish"],
    "pl" := ["pl", "pol", "polish"],
    "nl" := ["nl", "dut", "nld", "dutch"],
    "sv" := ["sv", "swe", "swedish"],
    "no" := ["no", "nor", "norwegian"],
    "da" := ["da", "dan", "danish"],
    "fi" := ["fi", "fin", "finnish"],
    "cs" := ["cs", "cze", "ces", "czech"],
    "sk" := ["sk", "slo", "slk", "slovak"],
    "hu" := ["hu", "hun", "hungarian"],
    "ro" := ["ro", "rum", "ron", "romanian"],
    "bg" := ["bg", "bul", "bulgarian"],
    "hr" := ["hr", "hrv", "croatian"],
    "sr" := ["sr", "srp", "serbian"],
    "uk" := ["uk", "ukr", "ukrainian"]
  ]

  /**
   * `is_language_match(requested, track)`: an empty track code never matches;
   * otherwise both codes are lower-cased, equal codes match, a primary code
   * matches exactly its own aliases, and any other code matches a code that
   * shares an alias list with it.
   */
  predicate IsLanguageMatch(requested: string, track: string)
  {
    if track == "" then false
    else
      var r := Lower(requested);
      var t := Lower(track);
      if r == t then true
      else if r in LanguageMapping then t in LanguageMapping[r]
      else exists codes :: codes in LanguageMapping.Values && r in codes && t in codes
  }

  /** `has_language_in_set(requested, langs)`: some member of `langs` matches `requested`. */
  predicate HasLanguageInSet(requested: string, langs: set<string>)
  {
    exists l :: l in langs && IsLanguageMatch(requested, l)
  }

  /**
   * The reverse index of the table: the primary code whose alias list holds
   * `code`, if any. The matching rule is characterised against it below.
   */
  function PrimaryCode(code: string): Option<string>
  {
    match code
    case "ru" | "rus" | "russian" => Some("ru")
    case "en" | "eng" | "english" => Some("en")
    case "ja" | "jpn" | "japanese" => Some("ja")
    case "de" | "ger" | "deu" | "german" => Some("de")
    case "fr" | "fre" | "fra" | "french" => Some("fr")
    case "es" | "spa" | "spanish" => Some("es")
    case "it" | "ita" | "italian" => Some("it")
    case "pt" | "por" | "portuguese" => Some("pt")
    case "zh" | "chi" | "zho" | "chinese" => Some("zh")
    case "ko" | "kor" | "korean" => Some("ko")
    case "ar" | "ara" | "arabic" => Some("ar")
    case "he" | "heb" | "hebrew" => Some("he")
    case "hi" | "hin" | "hindi" => Some("hi")
    case "th" | "tha" | "thai" => Some("th")
    case "tr" | "tur" | "turkish" => Some("tr")
    case "pl" | "pol" | "polish" => Some("pl")
    case "nl" | "dut" | "nld" | "dutch" => Some("nl")
    case "sv" | "swe" | "swedish" => Some("sv")
    case "no" | "nor" | "norwegian" => Some("no")
    case "da" | "dan" | "danish" => Some("da")
    case "fi" | "fin" | "finnish" => Some("fi")
    case "cs" | "cze" | "ces" | "czech" => Some("cs")
    case "sk" | "slo" | "slk" | "slovak" => Some("sk")
    case "hu" | "hun" | "hungarian" => Some("hu")
    case "ro" | "rum" | "ron" | "romanian" => Some("ro")
    case "bg" | "bul" | "bulgarian" => Some("bg")
    case "hr" | "hrv" | "croatian" => Some("hr")
    case "sr" | "srp" | "serbian" => Some("sr")
    case "uk" | "ukr" | "ukrainian" => Some("uk")
    case _ => None
  }

  lemma RussianAliases()
    ensures forall a :: a in LanguageMapping["ru"] <==> PrimaryCode(a) == Some("ru")
  {
  }

  lemma EnglishAliases()
    ensures forall a :: a in LanguageMapping["en"] <==> PrimaryCode(a) == Some("en")
  {
  }

  lemma JapaneseAliases()
    ensures forall a :: a in LanguageMapping["ja"] <==> PrimaryCode(a) == Some("ja")
  {
  }

  lemma GermanAliases()
    ensures forall a :: a in LanguageMapping["de"] <==> PrimaryCode(a) == Some("de")
  {
  }

  lemma FrenchAliases()
    ensures forall a :: a in LanguageMapping["fr"] <==> PrimaryCode(a) == Some("fr")
  {
  }

  lemma SpanishAliases()
    ensures forall a :: a in LanguageMapping["es"] <==> PrimaryCode(a) == Some("es")
  {
  }

  lemma ItalianAliases()
    ensures forall a :: a in LanguageMapping["it"] <==> PrimaryCode(a) == Some("it")
  {
  }

  lemma PortugueseAliases()
    ensures forall a :: a in LanguageMapping["pt"] <==> PrimaryCode(a) == Some("pt")
  {
  }

  lemma ChineseAliases()
    ensures forall a :: a in LanguageMapping["zh"] <==> PrimaryCode(a) == Some("zh")
  {
  }

  lemma KoreanAliases()
    ensures forall a :: a in LanguageMapping["ko"] <==> PrimaryCode(a) == Some("ko")
  {
  }

  lemma ArabicAliases()
    ensures forall a :: a in LanguageMapping["ar"] <==> PrimaryCode(a) == Some("ar")
  {
  }

  lemma HebrewAliases()
    ensures forall a :: a in LanguageMapping["he"] <==> PrimaryCode(a) == Some("he")
  {
  }

  lemma HindiAliases()
    ensures forall a :: a in LanguageMapping["hi"] <==> PrimaryCode(a) == Some("hi")
  {
  }

  lemma ThaiAliases()
    ensures forall a :: a in LanguageMapping["th"] <==> PrimaryCode(a) == Some("th")
  {
  }

  lemma TurkishAliases()
    ensures forall a :: a in LanguageMapping["tr"] <==> PrimaryCode(a) == Some("tr")
  {
  }

  lemma PolishAliases()
    ensures forall a :: a in LanguageMapping["pl"] <==> PrimaryCode(a) == Some("pl")
  {
  }

  lemma DutchAliases()
    ensures forall a :: a in LanguageMapping["nl"] <==> PrimaryCode(a) == Some("nl")
  {
  }

  lemma SwedishAliases()
    ensures forall a :: a in LanguageMapping["sv"] <==> PrimaryCode(a) == Some("sv")
  {
  }

  lemma NorwegianAliases()
    ensures forall a :: a in LanguageMapping["no"] <==> PrimaryCode(a) == Some("no")
  {
  }

  lemma DanishAliases()
    ensures forall a :: a in LanguageMapping["da"] <==> PrimaryCode(a) == Some("da")
  {
  }

  lemma FinnishAliases()
    ensures forall a :: a in LanguageMapping["fi"] <==> PrimaryCode(a) == Some("fi")
  {
  }

  lemma CzechAliases()
    ensures forall a :: a in LanguageMapping["cs"] <==> PrimaryCode(a) == Some("cs")
  {
  }

  lemma SlovakAliases()
    ensures forall a :: a in LanguageMapping["sk"] <==> PrimaryCode(a) == Some("sk")
  {
  }

  lemma HungarianAliases()
    ensures forall a :: a in LanguageMapping["hu"] <==> PrimaryCode(a) == Some("hu")
  {
  }

  lemma RomanianAliases()
    ensures forall a :: a in LanguageMapping["ro"] <==> PrimaryCode(a) == Some("ro")
  {
  }

  lemma BulgarianAliases()
    ensures forall a :: a in LanguageMapping["bg"] <==> PrimaryCode(a) == Some("bg")
  {
  }

  lemma CroatianAliases()
    ensures forall a :: a in LanguageMapping["hr"] <==> PrimaryCode(a) == Some("hr")
  {
  }

  lemma SerbianAliases()
    ensures forall a :: a in LanguageMapping["sr"] <==> PrimaryCode(a) == Some("sr")
  {
  }

  lemma UkrainianAliases()
    ensures forall a :: a in LanguageMapping["uk"] <==> PrimaryCode(a) == Some("uk")
  {
  }

  /** `AliasesIndexed` for the first ten primary codes of the table. */
  lemma FirstTenIndexed(k: string)
    requires k in {"ru", "en", "ja", "de", "fr", "es", "it", "pt", "zh", "ko"}
    ensures k in LanguageMapping && forall a :: a in LanguageMapping[k] <==> PrimaryCode(a) == Some(k)
  {
    if k == "ru" {
      RussianAliases();
    } else if k == "en" {
      EnglishAliases();
    } else if k == "ja" {
      JapaneseAliases();
    } else if k == "de" {
      GermanAliases();
    } else if k == "fr" {
      FrenchAliases();
    } else if k == "es" {
      SpanishAliases();
    } else if k == "it" {
      ItalianAliases();
    } else if k == "pt" {
      PortugueseAliases();
    } else if k == "zh" {
      ChineseAliases();
    } else if k == "ko" {
      KoreanAliases();
    }
  }

  /** `AliasesIndexed` for the second ten primary codes of the table. */
  lemma SecondTenIndexed(k: string)
    requires k in {"ar", "he", "hi", "th", "tr", "pl", "nl", "sv", "no", "da"}
    ensures k in LanguageMapping && forall a :: a in LanguageMapping[k] <==> PrimaryCode(a) == Some(k)
  {
    if k == "ar" {
      ArabicAliases();
    } else if k == "he" {
      HebrewAliases();
    } else if k == "hi" {
      HindiAliases();
    } else if k == "th" {
      ThaiAliases();
    } else if k == "tr" {
      TurkishAliases();
    } else if k == "pl" {
      PolishAliases();
    } else if k == "nl" {
      DutchAliases();
    } else if k == "sv" {
      SwedishAliases();
    } else if k == "no" {
      NorwegianAliases();
    } else if k == "da" {
      DanishAliases();
    }
  }

  /** `AliasesIndexed` for the last nine primary codes of the table. */
  lemma ThirdTenIndexed(k: string)
    requires k in {"fi", "cs", "sk", "hu", "ro", "bg", "hr", "sr", "uk"}
    ensures k in LanguageMapping && forall a :: a in LanguageMapping[k] <==> PrimaryCode(a) == Some(k)
  {
    if k == "fi" {
      FinnishAliases();
    } else if k == "cs" {
      CzechAliases();
    } else if k == "sk" {
      SlovakAliases();
    } else if k == "hu" {
      HungarianAliases();
    } else if k == "ro" {
      RomanianAliases();
    } else if k == "bg" {
      BulgarianAliases();
    } else if k == "hr" {
      CroatianAliases();
    } else if k == "sr" {
      SerbianAliases();
    } else if k == "uk" {
      UkrainianAliases();
    }
  }

  /** The alias list of each primary code is exactly the set of codes the reverse index sends to it. */
  lemma AliasesIndexed(k: string)
    requires k in LanguageMapping
    ensures forall a :: a in LanguageMapping[k] <==> PrimaryCode(a) == Some(k)
  {
    if k in {"ru", "en", "ja", "de", "fr", "es", "it", "pt", "zh", "ko"} {
      FirstTenIndexed(k);
    } else if k in {"ar", "he", "hi", "th", "tr", "pl", "nl", "sv", "no", "da"} {
      SecondTenIndexed(k);
    } else {
      ThirdTenIndexed(k);
    }
  }

  /** The reverse index only ever answers with a primary code. */
  lemma PrimaryCodeIsKey(code: string)
    ensures PrimaryCode(code).Some? ==> PrimaryCode(code).value in LanguageMapping
  {
  }

  /** `code` is an alias of `k` exactly when the reverse index sends `code` to `k`. */
  lemma AliasIndex(k: string, code: string)
    ensures k in LanguageMapping && code in LanguageMapping[k] <==> PrimaryCode(code) == Some(k)
  {
    PrimaryCodeIsKey(code);
    if k in LanguageMapping {
      AliasesIndexed(k);
    }
  }

  /** Every primary code is one of its own aliases. */
  lemma KeysInOwnList()
    ensures forall k :: k in LanguageMapping ==> k in LanguageMapping[k]
  {
  }

  /** The alias lists are pairwise disjoint: no code belongs to two languages. */
  lemma AliasListsDisjoint()
    ensures forall k1, k2, a ::
      k1 in LanguageMapping && k2 in LanguageMapping && a in LanguageMapping[k1] && a in LanguageMapping[k2] ==> k1 == k2
  {
    forall k1, k2, a | k1 in LanguageMapping && k2 in LanguageMapping && a in LanguageMapping[k1] && a in LanguageMapping[k2]
      ensures k1 == k2
    {
      AliasIndex(k1, a);
      AliasIndex(k2, a);
    }
  }

  /** A primary code is indexed under itself. */
  lemma KeyIndexedUnderItself(k: string)
    requires k in LanguageMapping
    ensures PrimaryCode(k) == Some(k)
  {
    KeysInOwnList();
    AliasIndex(k, k);
  }

  /**
   * The language a lower-cased code stands for: the primary code of its alias
   * list, or the code itself when no alias list holds it.
   */
  function Canonical(code: string): string
  {
    match PrimaryCode(code)
    case Some(k) => k
    case None => code
  }

  /** Only the empty code stands for the empty language. */
  lemma CanonicalNonEmpty(code: string)
    ensures Canonical(code) == "" <==> code == ""
  {
    PrimaryCodeIsKey(code);
    assert "" !in LanguageMapping;
  }

  /** The `any(...)` over the alias lists holds exactly when both codes have one primary code. */
  lemma SharedListIff(r: string, t: string)
    ensures (exists codes :: codes in LanguageMapping.Values && r in codes && t in codes)
        <==> PrimaryCode(r).Some? && PrimaryCode(r) == PrimaryCode(t)
  {
    if exists codes :: codes in LanguageMapping.Values && r in codes && t in codes {
      var codes :| codes in LanguageMapping.Values && r in codes && t in codes;
      var k :| k in LanguageMapping && LanguageMapping[k] == codes;
      AliasIndex(k, r);
      AliasIndex(k, t);
    }
    if PrimaryCode(r).Some? && PrimaryCode(r) == PrimaryCode(t) {
      var k := PrimaryCode(r).value;
      AliasIndex(k, r);
      AliasIndex(k, t);
      assert LanguageMapping[k] in LanguageMapping.Values;
    }
  }

  /**
   * The matching rule is equality of languages: a non-empty track code
   * matches exactly when both lower-cased codes stand for the same language.
   */
  lemma MatchCharacterization(requested: string, track: string)
    ensures IsLanguageMatch(requested, track)
        <==> track != "" && Canonical(Lower(requested)) == Canonical(Lower(track))
  {
    var r, t := Lower(requested), Lower(track);
    PrimaryCodeIsKey(r);
    PrimaryCodeIsKey(t);
    if PrimaryCode(r).Some? {
      KeyIndexedUnderItself(PrimaryCode(r).value);
      AliasIndex(PrimaryCode(r).value, t);
    }
    if PrimaryCode(t).Some? {
      KeyIndexedUnderItself(PrimaryCode(t).value);
    }
    if r in LanguageMapping {
      KeyIndexedUnderItself(r);
      AliasIndex(r, t);
    }
    SharedListIff(r, t);
  }

  /** An empty track code never matches, and an empty requested code matches nothing. */
  lemma EmptyNeverMatches(code: string)
    ensures !IsLanguageMatch(code, "")
    ensures !IsLanguageMatch("", code)
  {
    assert Lower("") == "";
    assert PrimaryCode("") == None;
    SharedListIff("", Lower(code));
  }

  /** The result depends only on the lower-cased codes. */
  lemma MatchCaseInsensitive(requested: string, track: string)
    ensures IsLanguageMatch(requested, track) == IsLanguageMatch(Lower(requested), Lower(track))
  {
    LowerIdempotent(requested);
    LowerIdempotent(track);
  }

  /** Every non-empty code matches itself, whether or not the table knows it. */
  lemma MatchReflexive(code: string)
    ensures IsLanguageMatch(code, code) <==> code != ""
  {
  }

  /** For a primary code, the result is exactly membership in that code's alias list. */
  lemma MatchPrimaryKey(requested: string, track: string)
    requires Lower(requested) in LanguageMapping
    ensures IsLanguageMatch(requested, track) <==> track != "" && Lower(track) in LanguageMapping[Lower(requested)]
  {
    KeysInOwnList();
  }

  /** The match is symmetric over all strings. */
  lemma MatchSymmetric(a: string, b: string)
    ensures IsLanguageMatch(a, b) == IsLanguageMatch(b, a)
  {
    MatchCharacterization(a, b);
    MatchCharacterization(b, a);
    CanonicalNonEmpty(Lower(a));
    CanonicalNonEmpty(Lower(b));
  }

  /** The match is transitive. */
  lemma MatchTransitive(a: string, b: string, c: string)
    requires IsLanguageMatch(a, b) && IsLanguageMatch(b, c)
    ensures IsLanguageMatch(a, c)
  {
    MatchCharacterization(a, b);
    MatchCharacterization(b, c);
    MatchCharacterization(a, c);
  }

  /** A primary code matches its ISO 639-2 alias, and not another language's code. */
  lemma PrimaryCodeExamples()
    ensures IsLanguageMatch("ru", "rus")
    ensures !IsLanguageMatch("ru", "eng")
  {
    LowerOfLower("ru");
    LowerOfLower("rus");
    LowerOfLower("eng");
    assert PrimaryCode("ru") == Some("ru");
    assert PrimaryCode("rus") == Some("ru");
    assert PrimaryCode("eng") == Some("en");
    MatchCharacterization("ru", "rus");
    MatchCharacterization("ru", "eng");
  }

  /** An alias matches its primary code. */
  lemma AliasExamples()
    ensures IsLanguageMatch("rus", "ru")
  {
    LowerOfLower("rus");
    LowerOfLower("ru");
    assert PrimaryCode("rus") == Some("ru");
    assert PrimaryCode("ru") == Some("ru");
    MatchCharacterization("rus", "ru");
  }

  /** Case does not matter on either side. */
  lemma CaseExamples()
    ensures IsLanguageMatch("RUS", "Russian")
  {
    assert Lower("RUS") == "rus";
    assert Lower("Russian") == "russian";
    assert PrimaryCode("rus") == Some("ru");
    assert PrimaryCode("russian") == Some("ru");
    MatchCharacterization("RUS", "Russian");
  }

  /** A code the table does not know matches only itself. */
  lemma UnknownCodeExamples()
    ensures !IsLanguageMatch("xx", "ru")
    ensures IsLanguageMatch("xx", "XX")
  {
    LowerOfLower("xx");
    LowerOfLower("ru");
    assert Lower("XX") == "xx";
    assert PrimaryCode("xx") == None;
    assert PrimaryCode("ru") == Some("ru");
    MatchCharacterization("xx", "ru");
  }

  /** No language is present in an empty set. */
  lemma NothingInEmptySet(requested: string)
    ensures !HasLanguageInSet(requested, {})
  {
  }

  /** `has_language_in_set` asks whether the requested language is among the languages of the non-empty codes. */
  lemma HasLanguageCharacterization(requested: string, langs: set<string>)
    ensures HasLanguageInSet(requested, langs)
        <==> Canonical(Lower(requested)) in (set l | l in langs && l != "" :: Canonical(Lower(l)))
  {
    if HasLanguageInSet(requested, langs) {
      var l :| l in langs && IsLanguageMatch(requested, l);
      MatchCharacterization(requested, l);
    }
    if Canonical(Lower(requested)) in (set l | l in langs && l != "" :: Canonical(Lower(l))) {
      var l :| l in langs && l != "" && Canonical(Lower(l)) == Canonical(Lower(requested));
      MatchCharacterization(requested, l);
    }
  }
}
