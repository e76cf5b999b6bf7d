/** The pure helpers of the chat backend: the language-preference detector,
    the allowed-type check for uploads, and the walk that turns datetimes into
    ISO strings before a document is stored. */
module Helpers {
  import opened Wrappers
  import opened Text

  // ---------------------------------------------------------------------------
  // Language-preference detection

  /** One regular expression of the detector. `WholeWord(alts)` is
      `\b(alt1|alt2|...)\b`; `Anywhere(alts)` is `(alt1|alt2|...)`. */
  datatype Pattern = WholeWord(alternatives: seq<string>) | Anywhere(alternatives: seq<string>)

  /** A language key and its patterns, tried in order. */
  datatype LanguageEntry = LanguageEntry(language: string, patterns: seq<Pattern>)

  /** The detector's table, in the order it is searched. */
  const LanguagePatterns: seq<LanguageEntry> := [
      LanguageEntry("english", [
        WholeWord(["english", "speak english", "talk in english", "use english"])
      ]),
      LanguageEntry("hindi", [
        WholeWord(["hindi", "हिंदी", "हिन्दी", "speak hindi", "talk in hindi", "use hindi"]),
        Anywhere(["मुझसे हिंदी में बात करो", "हिंदी में बोलो"])
      ]),
      LanguageEntry("spanish", [
        WholeWord(["spanish", "español", "espanol", "speak spanish", "talk in spanish", "use spanish"]),
        Anywhere(["habla español", "en español"])
      ]),
      LanguageEntry("tamil", [
        WholeWord(["tamil", "தமிழ்", "speak tamil", "talk in tamil", "use tamil"]),
        Anywhere(["தமிழில் பேசு", "தமிழில் பேசவும்"])
      ]),
      LanguageEntry("telugu", [
        WholeWord(["telugu", "తెలుగు", "speak telugu", "talk in telugu", "use telugu"]),
        Anywhere(["తెలుగులో మాట్లాడు", "తెలుగులో మాట్లాడండి"])
      ]),
      LanguageEntry("kannada", [
        WholeWord(["kannada", "ಕನ್ನಡ", "speak kannada", "talk in kannada", "use kannada"]),
        Anywhere(["ಕನ್ನಡದಲ್ಲಿ ಮಾತನಾಡಿ"])
      ]),
      LanguageEntry("malayalam", [
        WholeWord(["malayalam", "മലയാളം", "speak malayalam", "talk in malayalam", "use malayalam"]),
        Anywhere(["മലയാളത്തിൽ സംസാരിക്കുക", "മലയാളത്തിൽ സംസാരിക്കൂ"])
      ]),
      LanguageEntry("punjabi", [
        WholeWord(["punjabi", "ਪੰਜਾਬੀ", "speak punjabi", "talk in punjabi", "use punjabi"]),
        Anywhere(["ਪੰਜਾਬੀ ਵਿੱਚ ਗੱਲ ਕਰੋ"])
      ]),
      LanguageEntry("gujarati", [
        WholeWord(["gujarati", "ગુજરાતી", "speak gujarati", "talk in gujarati", "use gujarati"]),
        Anywhere(["ગુજરાતીમાં વાત કરો"])
      ]),
      LanguageEntry("marathi", [
        WholeWord(["marathi", "मराठी", "speak marathi", "talk in marathi", "use marathi"]),
        Anywhere(["मराठीत बोल"])
      ]),
      LanguageEntry("bengali", [
        WholeWord(["bengali", "বাংলা", "speak bengali", "talk in bengali", "use bengali"]),
        Anywhere(["বাংলায় কথা বলুন"])
      ]),
      LanguageEntry("odia", [
        WholeWord(["odia", "ଓଡ଼ିଆ", "speak odia", "talk in odia", "use odia"]),
        Anywhere(["ଓଡ଼ିଆରେ କଥା ହୁଅନ୍ତୁ"])
      ]),
      LanguageEntry("assamese", [
        WholeWord(["assamese", "অসমীয়া", "speak assamese", "talk in assamese", "use assamese"]),
        Anywhere(["অসমীয়াত কথা পাতক"])
      ]),
      LanguageEntry("urdu", [
        WholeWord(["urdu", "اردو", "speak urdu", "talk in urdu", "use urdu"])
      ]),
      LanguageEntry("chinese", [
        WholeWord(["chinese", "中文", "speak chinese", "talk in chinese", "use chinese"])
      ]),
      LanguageEntry("arabic", [
        WholeWord(["arabic", "عربية", "speak arabic", "talk in arabic", "use arabic"])
      ]),
      LanguageEntry("japanese", [
        WholeWord(["japanese", "日本語", "speak japanese", "talk in japanese", "use japanese"])
      ])
  ]

  /** `\w` of the regular-expression engine: ASCII letters, digits and `_`;
      for other characters the engine's Unicode classification, given as
      `unicodeWord`. */
  predicate IsWordChar(c: char, unicodeWord: char -> bool) {
    if c < '\U{80}' then ('a' <= c <= 'z') || ('A' <= c <= 'Z') || ('0' <= c <= '9') || c == '_'
    else unicodeWord(c)
  }

  /** `\b` at position `i`: a word character on exactly one side. */
  predicate IsBoundary(text: string, i: int, unicodeWord: char -> bool)
    requires 0 <= i <= |text|
  {
    (0 < i && IsWordChar(text[i - 1], unicodeWord)) != (i < |text| && IsWordChar(text[i], unicodeWord))
  }

  /** `w` occurs at `i` with a word boundary on both ends. */
  predicate WholeWordAt(text: string, w: string, i: int, unicodeWord: char -> bool) {
    OccursAt(text, w, i) && IsBoundary(text, i, unicodeWord) && IsBoundary(text, i + |w|, unicodeWord)
  }

  /** `re.search(p, text)` finds a match. */
  predicate PatternMatches(p: Pattern, text: string, unicodeWord: char -> bool) {
    match p
    case WholeWord(alts) =>
      exists k, i :: 0 <= k < |alts| && 0 <= i <= |text| && WholeWordAt(text, alts[k], i, unicodeWord)
    case Anywhere(alts) =>
      exists k :: 0 <= k < |alts| && Contains(text, alts[k])
  }

  /** Some pattern of the entry matches. */
  predicate LanguageMatches(e: LanguageEntry, text: string, unicodeWord: char -> bool) {
    exists j :: 0 <= j < |e.patterns| && PatternMatches(e.patterns[j], text, unicodeWord)
  }

  /** No entry before index `n` matches. */
  predicate NoEarlierMatch(text: string, n: int, unicodeWord: char -> bool)
    requires n <= |LanguagePatterns|
  {
    forall j :: 0 <= j < n ==> !LanguageMatches(LanguagePatterns[j], text, unicodeWord)
  }

  /** Index of the first matching entry at or after `from`. */
  function FirstMatch(text: string, from: nat, unicodeWord: char -> bool): (r: Option<nat>)
    requires from <= |LanguagePatterns|
    decreases |LanguagePatterns| - from
    ensures r.Some? ==> from <= r.value < |LanguagePatterns| && LanguageMatches(LanguagePatterns[r.value], text, unicodeWord)
    ensures forall j :: from <= j < |LanguagePatterns| && (r.None? || j < r.value) ==>
      !LanguageMatches(LanguagePatterns[j], text, unicodeWord)
  {
    if from == |LanguagePatterns| then None
    else if LanguageMatches(LanguagePatterns[from], text, unicodeWord) then Some(from)
    else FirstMatch(text, from + 1, unicodeWord)
  }

  /** `detect_language_preference(msg)`: the first language in table order
      with a pattern matching the lower-cased message; none for an empty
      message or when nothing matches. */
  function DetectLanguagePreference(msg: string, unicodeWord: char -> bool): (r: Option<string>)
    ensures msg == [] ==> r == None
    ensures r.Some? <==>
      msg != [] && exists i :: 0 <= i < |LanguagePatterns| && LanguageMatches(LanguagePatterns[i], Lower(msg), unicodeWord)
    ensures r.Some? ==>
      exists i :: 0 <= i < |LanguagePatterns| && r.value == LanguagePatterns[i].language
        && LanguageMatches(LanguagePatterns[i], Lower(msg), unicodeWord) && NoEarlierMatch(Lower(msg), i, unicodeWord)
  {
    if msg == [] then None
    else
      match FirstMatch(Lower(msg), 0, unicodeWord)
      case Some(i) => Some(LanguagePatterns[i].language)
      case None => None
  }

  /** The language keys of the table, in order. */
  function Languages(): (r: seq<string>)
    ensures |r| == |LanguagePatterns|
    ensures forall i :: 0 <= i < |r| ==> r[i] == LanguagePatterns[i].language
  {
    seq(|LanguagePatterns|, i requires 0 <= i < |LanguagePatterns| => LanguagePatterns[i].language)
  }

  /** The table holds 17 distinct language keys. */
  lemma TableKeys()
    ensures Languages() == ["english", "hindi", "spanish", "tamil", "telugu", "kannada", "malayalam",
      "punjabi", "gujarati", "marathi", "bengali", "odia", "assamese", "urdu", "chinese", "arabic", "japanese"]
    ensures forall i, j :: 0 <= i < j < |LanguagePatterns| ==> LanguagePatterns[i].language != LanguagePatterns[j].language
  {
  }

  /** Converse of the detector's contract: the first matching entry in table
      order is the one reported. */
  lemma FirstInTableOrderWins(msg: string, i: nat, unicodeWord: char -> bool)
    requires msg != [] && i < |LanguagePatterns|
    requires LanguageMatches(LanguagePatterns[i], Lower(msg), unicodeWord)
    requires NoEarlierMatch(Lower(msg), i, unicodeWord)
    ensures DetectLanguagePreference(msg, unicodeWord) == Some(LanguagePatterns[i].language)
  {
    var r := FirstMatch(Lower(msg), 0, unicodeWord);
    assert r.Some?;
    assert r.value == i;
  }

  /** Letter case of the input does not matter. */
  lemma DetectIgnoresCase(a: string, b: string, unicodeWord: char -> bool)
    requires Lower(a) == Lower(b)
    ensures DetectLanguagePreference(a, unicodeWord) == DetectLanguagePreference(b, unicodeWord)
  {
    assert |a| == |Lower(a)| == |Lower(b)| == |b|;
  }

  /** Detecting on an already lower-cased message gives the same answer. */
  lemma DetectOnLowered(msg: string, unicodeWord: char -> bool)
    ensures DetectLanguagePreference(Lower(msg), unicodeWord) == DetectLanguagePreference(msg, unicodeWord)
  {
    LowerIdempotent(msg);
    DetectIgnoresCase(Lower(msg), msg, unicodeWord);
  }

  /** Every entry's first pattern is whole-word and starts with the bare
      language name. */
  lemma BareNameIsFirstAlternative(i: nat)
    requires i < |LanguagePatterns|
    ensures |LanguagePatterns[i].patterns| > 0
    ensures LanguagePatterns[i].patterns[0].WholeWord?
    ensures |LanguagePatterns[i].patterns[0].alternatives| > 0
    ensures LanguagePatterns[i].patterns[0].alternatives[0] == LanguagePatterns[i].language
  {
  }

  /** A bare, whole-word mention of a language name selects that language,
      unless an earlier language in the table also matches; no "speak" or
      "use" is needed. */
  lemma BareNameSuffices(msg: string, i: nat, pos: nat, unicodeWord: char -> bool)
    requires i < |LanguagePatterns|
    requires WholeWordAt(Lower(msg), LanguagePatterns[i].language, pos, unicodeWord)
    requires NoEarlierMatch(Lower(msg), i, unicodeWord)
    ensures DetectLanguagePreference(msg, unicodeWord) == Some(LanguagePatterns[i].language)
  {
    BareNameIsFirstAlternative(i);
    var e := LanguagePatterns[i];
    assert WholeWordAt(Lower(msg), e.patterns[0].alternatives[0], pos, unicodeWord);
    assert PatternMatches(e.patterns[0], Lower(msg), unicodeWord);
    assert LanguageMatches(e, Lower(msg), unicodeWord);
    assert |msg| == |Lower(msg)| > 0;
    FirstInTableOrderWins(msg, i, unicodeWord);
  }

  /** English is first in the table, so a whole-word "english" anywhere in the
      message wins over every other language named in it. */
  lemma EnglishMentionWins(msg: string, pos: nat, unicodeWord: char -> bool)
    requires WholeWordAt(Lower(msg), "english", pos, unicodeWord)
    ensures DetectLanguagePreference(msg, unicodeWord) == Some("english")
  {
    BareNameSuffices(msg, 0, pos, unicodeWord);
  }

  /** A whole-word phrase that ends in a whole word after a non-word
      character contains that word as a whole word. */
  lemma PhraseContainsWord(text: string, prefix: string, w: string, i: int, unicodeWord: char -> bool)
    requires WholeWordAt(text, prefix + w, i, unicodeWord)
    requires |prefix| > 0 && !IsWordChar(prefix[|prefix| - 1], unicodeWord)
    requires |w| > 0 && IsWordChar(w[0], unicodeWord)
    ensures WholeWordAt(text, w, i + |prefix|, unicodeWord)
  {
    var j := i + |prefix|;
    assert text[i..i + |prefix| + |w|] == prefix + w;
    assert text[j - 1] == (prefix + w)[|prefix| - 1];
    assert text[j] == (prefix + w)[|prefix|];
    assert text[j..j + |w|] == (prefix + w)[|prefix|..];
  }

  /** The English entry matches only where the word "english" itself stands
      as a whole word: its phrasings add nothing to the bare name. */
  lemma EnglishMatchIsBareWord(text: string, unicodeWord: char -> bool)
    requires LanguageMatches(LanguagePatterns[0], text, unicodeWord)
    ensures exists pos :: 0 <= pos <= |text| && WholeWordAt(text, "english", pos, unicodeWord)
  {
    var alts := LanguagePatterns[0].patterns[0].alternatives;
    assert alts == ["english", "speak english", "talk in english", "use english"];
    var k, i :| 0 <= k < |alts| && 0 <= i <= |text| && WholeWordAt(text, alts[k], i, unicodeWord);
    PhrasingHoldsBareWord(text, alts, k, i, unicodeWord);
  }

  /** Each phrasing of the English entry holds the bare word as a whole word. */
  lemma PhrasingHoldsBareWord(text: string, alts: seq<string>, k: nat, i: nat, unicodeWord: char -> bool)
    requires alts == ["english", "speak english", "talk in english", "use english"]
    requires k < |alts| && i <= |text| && WholeWordAt(text, alts[k], i, unicodeWord)
    ensures exists pos :: 0 <= pos <= |text| && WholeWordAt(text, "english", pos, unicodeWord)
  {
    if k == 1 {
      assert alts[k] == "speak " + "english";
      PhraseContainsWord(text, "speak ", "english", i, unicodeWord);
      assert WholeWordAt(text, "english", i + 6, unicodeWord);
    } else if k == 2 {
      assert alts[k] == "talk in " + "english";
      PhraseContainsWord(text, "talk in ", "english", i, unicodeWord);
      assert WholeWordAt(text, "english", i + 8, unicodeWord);
    } else if k == 3 {
      assert alts[k] == "use " + "english";
      PhraseContainsWord(text, "use ", "english", i, unicodeWord);
      assert WholeWordAt(text, "english", i + 4, unicodeWord);
    } else {
      assert WholeWordAt(text, "english", i, unicodeWord);
    }
  }

  /** "englishman" does not contain "english" as a whole word, so it does not
      select English. */
  lemma EnglishmanIsNotEnglish(unicodeWord: char -> bool)
    ensures DetectLanguagePreference("Englishman", unicodeWord) != Some("english")
  {
    var text := Lower("Englishman");
    assert text == "englishman";
    forall pos | 0 <= pos <= |text|
      ensures !WholeWordAt(text, "english", pos, unicodeWord)
    {
      if pos == 0 {
        assert IsWordChar(text[7], unicodeWord);
        assert IsWordChar(text[6], unicodeWord);
      } else if pos <= 3 {
        assert text[pos..pos + 7] != "english" by { assert text[pos] != 'e'; }
      }
    }
    if LanguageMatches(LanguagePatterns[0], text, unicodeWord) {
      EnglishMatchIsBareWord(text, unicodeWord);
    }
    TableKeys();
  }

  /** A message naming both English and Hindi selects English. */
  lemma EnglishBeforeHindi(unicodeWord: char -> bool)
    ensures DetectLanguagePreference("Hindi or English please", unicodeWord) == Some("english")
  {
    var text := Lower("Hindi or English please");
    assert text == "hindi or english please";
    assert text[9..16] == "english";
    assert text[8] == ' ' && text[9] == 'e' && text[15] == 'h' && text[16] == ' ';
    assert IsBoundary(text, 9, unicodeWord) && IsBoundary(text, 16, unicodeWord);
    assert WholeWordAt(text, "english", 9, unicodeWord);
    EnglishMentionWins("Hindi or English please", 9, unicodeWord);
  }

  // ---------------------------------------------------------------------------
  // Allowed-type check

  /** `validate_file_type(content_type, allowed_types)`: some allowed entry,
      with its trailing `*` characters removed, is a prefix of the type. */
  function ValidateFileType(contentType: string, allowedTypes: seq<string>): (r: bool)
    ensures r <==> exists k :: 0 <= k < |allowedTypes| && StartsWith(contentType, RStripChar(allowedTypes[k], '*'))
  {
    if allowedTypes == [] then false
    else StartsWith(contentType, RStripChar(allowedTypes[0], '*')) || ValidateFileType(contentType, allowedTypes[1..])
  }

  /** A wildcard entry such as `image/` followed by a star admits exactly the types starting with
      "image/", including ones outside any fixed list. */
  lemma WildcardEntryIsPrefix(contentType: string)
    ensures ValidateFileType(contentType, ["image/*"]) <==> StartsWith(contentType, "image/")
  {
    assert RStripChar("image/*", '*') == "image/" by {
      assert "image/*"[..6] == "image/";
    }
  }

  /** Every entry is only a prefix test: a type that is accepted stays
      accepted whatever follows it, such as parameters after the type. */
  lemma AcceptedTypeKeepsSuffix(contentType: string, suffix: string, allowedTypes: seq<string>)
    requires ValidateFileType(contentType, allowedTypes)
    ensures ValidateFileType(contentType + suffix, allowedTypes)
  {
    var k :| 0 <= k < |allowedTypes| && StartsWith(contentType, RStripChar(allowedTypes[k], '*'));
    var prefix := RStripChar(allowedTypes[k], '*');
    assert (contentType + suffix)[..|prefix|] == contentType[..|prefix|];
    assert StartsWith(contentType + suffix, prefix);
  }

  // ---------------------------------------------------------------------------
  // Preparing a document for storage

  /** A JSON-like document value. `DateTime` holds an abstract instant. */
  datatype Value =
    | DateTime(instant: int)
    | Str(s: string)
    | Number(n: int)
    | Boolean(b: bool)
    | Null
    | List(items: seq<Value>)
    | Dict(entries: seq<Entry>)

  datatype Entry = Entry(key: string, value: Value)

  /** No datetime is reachable from `v` through dictionaries. Lists are not
      looked into. */
  predicate NoDates(v: Value)
    decreases v, 1
  {
    v.Dict? ==> NoDatesIn(v.entries)
  }

  predicate NoDatesIn(es: seq<Entry>)
    decreases es, 0
  {
    forall k :: 0 <= k < |es| ==> !es[k].value.DateTime? && NoDates(es[k].value)
  }

  /** `prepare_for_mongo(data)`: every datetime value of a dictionary, at top
      level or in nested dictionaries, becomes its ISO string (`iso` stands
      for `isoformat()`); keys, their order and all other values, lists
      included, stay as they were; a non-dictionary is returned unchanged. */
  function PrepareForMongo(data: Value, iso: int -> string): (r: Value)
    decreases data, 1
    ensures !data.Dict? ==> r == data
    ensures data.Dict? ==> r.Dict? && |r.entries| == |data.entries|
    ensures data.Dict? ==> r.entries == PrepareEntries(data.entries, iso)
    ensures NoDates(r)
  {
    match data
    case Dict(es) => Dict(PrepareEntries(es, iso))
    case _ => data
  }

  function PrepareEntries(es: seq<Entry>, iso: int -> string): (r: seq<Entry>)
    decreases es, 0
    ensures |r| == |es|
    ensures forall k :: 0 <= k < |es| ==> r[k].key == es[k].key
    ensures forall k :: 0 <= k < |es| ==> (match es[k].value
      case DateTime(t) => r[k].value == Str(iso(t))
      case Dict(_) => r[k].value == PrepareForMongo(es[k].value, iso)
      case _ => r[k].value == es[k].value)
    ensures NoDatesIn(r)
  {
    if es == [] then []
    else
      var v := es[0].value;
      var v' := (match v
        case DateTime(t) => Str(iso(t))
        case Dict(_) => PrepareForMongo(v, iso)
        case _ => v);
      [Entry(es[0].key, v')] + PrepareEntries(es[1..], iso)
  }

  /** A document with no datetime left in its dictionaries is a fixed point;
      hence preparing twice is preparing once. */
  lemma {:induction false} PrepareFixesDateFree(v: Value, iso: int -> string)
    requires NoDates(v)
    ensures PrepareForMongo(v, iso) == v
    decreases v, 1
  {
    if v.Dict? {
      PrepareEntriesFixesDateFree(v.entries, iso);
    }
  }

  lemma {:induction false} PrepareEntriesFixesDateFree(es: seq<Entry>, iso: int -> string)
    requires NoDatesIn(es)
    ensures PrepareEntries(es, iso) == es
    decreases es, 0
  {
    if es != [] {
      if es[0].value.Dict? {
        PrepareFixesDateFree(es[0].value, iso);
      }
      assert NoDatesIn(es[1..]) by {
        forall k | 0 <= k < |es[1..]| ensures !es[1..][k].value.DateTime? && NoDates(es[1..][k].value) {
          assert es[1..][k] == es[k + 1];
        }
      }
      PrepareEntriesFixesDateFree(es[1..], iso);
    }
  }

  lemma PrepareIdempotent(v: Value, iso: int -> string)
    ensures PrepareForMongo(PrepareForMongo(v, iso), iso) == PrepareForMongo(v, iso)
  {
    PrepareFixesDateFree(PrepareForMongo(v, iso), iso);
  }

  /** Lists are not looked into: an entry holding a list, datetimes inside
      it included, is kept exactly as it was. */
  lemma ListEntriesUntouched(es: seq<Entry>, iso: int -> string)
    ensures forall k :: 0 <= k < |es| && es[k].value.List? ==> PrepareEntries(es, iso)[k] == es[k]
  {
  }
}
