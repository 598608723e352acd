/** Multilingual prompting: keyword-based language detection with a
    character-range fallback, the cultural-context and script tables, the
    culture groups a language belongs to, and the word-overlap similarity
    used when no sentence-embedding model is available.

    Lowering is the ASCII-only `Lower` of the Text module, so an upper-case
    non-Latin letter is not lowered before the keyword test. */
module Multilingual {
  import opened Text
  import opened Numeric

  datatype Script = Latin | Cyrillic | Arabic | Chinese | Japanese | Hindi | Tamil | Hebrew {
    function Value(): string {
      match this
      case Latin => "latin"
      case Cyrillic => "cyrillic"
      case Arabic => "arabic"
      case Chinese => "chinese"
      case Japanese => "japanese"
      case Hindi => "hindi"
      case Tamil => "tamil"
      case Hebrew => "hebrew"
    }
  }

  datatype Indicator = Indicator(language: string, keywords: seq<string>, script: Script)

  /** `language_indicators`, in the dict's order. */
  const LanguageIndicators: seq<Indicator> := [
    Indicator("english", ["the", "and", "is", "in", "to"], Latin),
    Indicator("spanish", ["el", "la", "es", "en", "de"], Latin),
    Indicator("french", ["le", "de", "et", "à", "un"], Latin),
    Indicator("hindi", ["का", "की", "के", "में", "से"], Hindi),
    Indicator("russian", ["в", "и", "не", "на", "с"], Cyrillic),
    Indicator("chinese", ["的", "是", "在", "有", "我"], Chinese),
    Indicator("tamil", ["அது", "இது", "என்", "ஒரு", "மற்றும்"], Tamil),
    Indicator("arabic", ["في", "من", "إلى", "على", "أن"], Arabic)
  ]

  /** `cultural_contexts`. */
  const CulturalContexts: seq<(string, string)> := [
    ("english", "Direct, individualistic communication style"),
    ("spanish", "Warm, relationship-focused communication"),
    ("french", "Formal, structured communication with attention to protocol"),
    ("hindi", "Respectful, hierarchical communication with cultural sensitivity"),
    ("russian", "Formal, hierarchical communication style"),
    ("chinese", "Harmony-preserving, context-rich communication"),
    ("tamil", "Traditional, respectful communication with cultural reverence"),
    ("arabic", "Elaborate, hospitality-focused communication")
  ]

  const UniversalContext: string := "Universal communication style"

  /** `dict.get(key, default)` on a table of pairs. */
  function Lookup<V>(table: seq<(string, V)>, key: string, default: V): (v: V)
    ensures (forall i :: 0 <= i < |table| ==> table[i].0 != key) ==> v == default
    ensures forall i :: 0 <= i < |table| && table[i].0 == key && (forall j :: 0 <= j < i ==> table[j].0 != key) ==> v == table[i].1
  {
    if |table| == 0 then default
    else if table[0].0 == key then table[0].1
    else Lookup(table[1..], key, default)
  }

  predicate HasKey<V>(table: seq<(string, V)>, key: string) {
    exists i :: 0 <= i < |table| && table[i].0 == key
  }

  function ScriptPairs(table: seq<Indicator>): seq<(string, Script)> {
    seq(|table|, i requires 0 <= i < |table| => (table[i].language, table[i].script))
  }

  function ScriptOf(language: string): Script {
    Lookup(ScriptPairs(LanguageIndicators), language, Latin)
  }

  function ContextOf(language: string): string {
    Lookup(CulturalContexts, language, UniversalContext)
  }

  /** The score of each language: how many of its keywords occur in the
      lowered text. */
  function ScriptScores(table: seq<Indicator>, lowered: string): (s: seq<nat>)
    ensures |s| == |table|
    ensures forall i :: 0 <= i < |table| ==> s[i] == CountPresent(table[i].keywords, lowered)
  {
    seq(|table|, i requires 0 <= i < |table| => CountPresent(table[i].keywords, lowered))
  }

  /** `scores.get(language, 0)`. */
  function ScoreOf(table: seq<Indicator>, scores: seq<nat>, language: string): nat
    requires |scores| == |table|
  {
    if |table| == 0 then 0
    else if table[0].language == language then scores[0]
    else ScoreOf(table[1..], scores[1..], language)
  }

  // ---------------------------------------------------------------------
  // Script fallback
  // ---------------------------------------------------------------------

  /** `[а-яё]` with `re.IGNORECASE`: the lower-case letters and their
      upper-case partners. */
  predicate IsCyrillic(c: char) {
    ('а' <= c <= 'я') || c == 'ё' || ('А' <= c <= 'Я') || c == 'Ё'
  }

  /** `[一-龯]`. */
  predicate IsHan(c: char) { '\U{4E00}' <= c <= '\U{9FAF}' }

  /** `[ऀ-ॿ]`. */
  predicate IsDevanagari(c: char) { '\U{0900}' <= c <= '\U{097F}' }

  /** `[஀-௿]`. */
  predicate IsTamil(c: char) { '\U{0B80}' <= c <= '\U{0BFF}' }

  /** `[؀-ۿ]`. */
  predicate IsArabic(c: char) { '\U{0600}' <= c <= '\U{06FF}' }

  predicate AnyCyrillic(s: string) { exists i :: 0 <= i < |s| && IsCyrillic(s[i]) }
  predicate AnyHan(s: string) { exists i :: 0 <= i < |s| && IsHan(s[i]) }
  predicate AnyDevanagari(s: string) { exists i :: 0 <= i < |s| && IsDevanagari(s[i]) }
  predicate AnyTamil(s: string) { exists i :: 0 <= i < |s| && IsTamil(s[i]) }
  predicate AnyArabic(s: string) { exists i :: 0 <= i < |s| && IsArabic(s[i]) }

  /** The language chosen by character ranges when no keyword matched. */
  function ScriptFallback(text: string): string {
    if AnyCyrillic(text) then "russian"
    else if AnyHan(text) then "chinese"
    else if AnyDevanagari(text) then "hindi"
    else if AnyTamil(text) then "tamil"
    else if AnyArabic(text) then "arabic"
    else "english"
  }

  // ---------------------------------------------------------------------
  // Detection
  // ---------------------------------------------------------------------

  datatype LanguageDetection = LanguageDetection(language: string, confidence: real, script: Script, culturalContext: string)


  predicate AllZero(scores: seq<nat>) {
    forall i :: 0 <= i < |scores| ==> scores[i] == 0
  }

  /** The language names of a table are distinct. */
  predicate DistinctLanguages(table: seq<Indicator>) {
    forall i, j :: 0 <= i < j < |table| ==> table[i].language != table[j].language
  }

  lemma {:induction false} ScoreOfAt(table: seq<Indicator>, scores: seq<nat>, j: nat)
    requires |scores| == |table| && j < |table| && DistinctLanguages(table)
    ensures ScoreOf(table, scores, table[j].language) == scores[j]
  {
    if j > 0 {
      assert table[0].language != table[j].language;
      assert DistinctLanguages(table[1..]) by {
        forall a, b | 0 <= a < b < |table[1..]| ensures table[1..][a].language != table[1..][b].language {
          assert table[1..][a] == table[a + 1] && table[1..][b] == table[b + 1];
        }
      }
      ScoreOfAt(table[1..], scores[1..], j - 1);
    }
  }

  lemma {:induction false} ScoreOfAllZero(table: seq<Indicator>, scores: seq<nat>, language: string)
    requires |scores| == |table| && AllZero(scores)
    ensures ScoreOf(table, scores, language) == 0
  {
    if |table| > 0 && table[0].language != language {
      ScoreOfAllZero(table[1..], scores[1..], language);
    }
  }

  /** Entry `j` has the highest score and no earlier entry ties with it. */
  predicate FirstBestScript(table: seq<Indicator>, s: seq<nat>, j: int)
    requires |s| == |table|
  {
    && 0 <= j < |table|
    && (forall i :: 0 <= i < |table| ==> s[i] <= s[j])
    && (forall i :: 0 <= i < j ==> s[i] < s[j])
  }

  /** The language, its score and confidence chosen against a keyword
      table: the first language with the highest positive score, else the
      script fallback with score 0. */
  function Choose(table: seq<Indicator>, text: string): (r: (string, real))
    requires DistinctLanguages(table)
    ensures var s := ScriptScores(table, Lower(text));
      && (AllZero(s) ==> r == (ScriptFallback(text), 0.0))
      && (!AllZero(s) ==> exists j :: FirstBestScript(table, s, j) && r == (table[j].language, Capped(s[j] as real / 5.0)))
    ensures 0.0 <= r.1 <= 1.0
  {
    var s := ScriptScores(table, Lower(text));
    var language := if AllZero(s) then ScriptFallback(text) else table[ArgMaxFirst(s)].language;
    if AllZero(s) then
      ScoreOfAllZero(table, s, language);
      (language, Capped(ScoreOf(table, s, language) as real / 5.0))
    else
      ScoreOfAt(table, s, ArgMaxFirst(s));
      (language, Capped(ScoreOf(table, s, language) as real / 5.0))
  }

  lemma IndicatorNamesDistinct()
    ensures DistinctLanguages(LanguageIndicators)
  {
  }

  /** `detect_language`. */
  function DetectLanguage(text: string): (r: LanguageDetection)
    ensures var c := (IndicatorNamesDistinct(); Choose(LanguageIndicators, text));
      r.language == c.0 && r.confidence == c.1
    ensures r.script == ScriptOf(r.language) && r.culturalContext == ContextOf(r.language)
  {
    IndicatorNamesDistinct();
    var c := Choose(LanguageIndicators, text);
    LanguageDetection(c.0, c.1, ScriptOf(c.0), ContextOf(c.0))
  }

  /** With no keyword present the fallback is taken and the confidence is 0. */
  lemma FallbackHasNoConfidence(text: string)
    requires AllZero(ScriptScores(LanguageIndicators, Lower(text)))
    ensures DetectLanguage(text).language == ScriptFallback(text)
    ensures DetectLanguage(text).confidence == 0.0
  {
    IndicatorNamesDistinct();
  }

  /** Every language the detector can return, by keywords or by fallback,
      names an entry of the indicator table. */
  lemma DetectedIsTabled(text: string)
    ensures exists j :: 0 <= j < |LanguageIndicators| && DetectLanguage(text).language == LanguageIndicators[j].language
  {
    IndicatorNamesDistinct();
    var l := DetectLanguage(text).language;
    if AllZero(ScriptScores(LanguageIndicators, Lower(text))) {
      FallbackIsTabled(text);
    }
  }

  lemma FallbackIsTabled(text: string)
    ensures exists j :: 0 <= j < |LanguageIndicators| && ScriptFallback(text) == LanguageIndicators[j].language
  {
    var f := ScriptFallback(text);
    var t := LanguageIndicators;
    if f == "russian" { assert f == t[4].language; }
    else if f == "chinese" { assert f == t[5].language; }
    else if f == "hindi" { assert f == t[3].language; }
    else if f == "tamil" { assert f == t[6].language; }
    else if f == "arabic" { assert f == t[7].language; }
    else { assert f == t[0].language; }
  }

  predicate DistinctKeys<V>(table: seq<(string, V)>) {
    forall i, j :: 0 <= i < j < |table| ==> table[i].0 != table[j].0
  }

  lemma LookupAt<V>(table: seq<(string, V)>, j: nat, default: V)
    requires j < |table| && DistinctKeys(table)
    ensures Lookup(table, table[j].0, default) == table[j].1
  {
  }

  lemma TablesDistinct()
    ensures DistinctKeys(ScriptPairs(LanguageIndicators))
    ensures DistinctKeys(CulturalContexts)
  {
    IndicatorNamesDistinct();
  }

  /** Both tables list the languages of the indicator table, at the same
      positions. */
  lemma TablesAligned(j: nat)
    requires j < |LanguageIndicators|
    ensures ScriptPairs(LanguageIndicators)[j] == (LanguageIndicators[j].language, LanguageIndicators[j].script)
    ensures CulturalContexts[j].0 == LanguageIndicators[j].language
  {
  }

  predicate UsesEntry(r: LanguageDetection, j: nat)
    requires j < |LanguageIndicators|
  {
    && r.language == LanguageIndicators[j].language
    && r.script == LanguageIndicators[j].script
    && r.culturalContext == CulturalContexts[j].1
  }

  /** Every detected language gets its own script and its own cultural
      context, never the lookup defaults. */
  lemma DetectionUsesTables(text: string)
    ensures exists j :: 0 <= j < |LanguageIndicators| && UsesEntry(DetectLanguage(text), j)
  {
    DetectedIsTabled(text);
    var r := DetectLanguage(text);
    var j :| 0 <= j < |LanguageIndicators| && r.language == LanguageIndicators[j].language;
    ScriptOfEntry(j);
    ContextOfEntry(j);
    assert UsesEntry(r, j);
  }

  lemma ScriptOfEntry(j: nat)
    requires j < |LanguageIndicators|
    ensures ScriptOf(LanguageIndicators[j].language) == LanguageIndicators[j].script
  {
    TablesDistinct();
    TablesAligned(j);
    LookupAt(ScriptPairs(LanguageIndicators), j, Latin);
  }

  lemma ContextOfEntry(j: nat)
    requires j < |LanguageIndicators|
    ensures ContextOf(LanguageIndicators[j].language) == CulturalContexts[j].1
  {
    TablesDistinct();
    TablesAligned(j);
    LookupAt(CulturalContexts, j, UniversalContext);
  }

  // ---------------------------------------------------------------------
  // Cultural adaptations
  // ---------------------------------------------------------------------

  datatype CultureGroup = CultureGroup(name: string, languages: seq<string>, style: string, adaptations: seq<string>)

  /** `cultural_adaptations`, in the dict's order. */
  const CultureGroups: seq<CultureGroup> := [
    CultureGroup("collectivist", ["chinese", "hindi", "tamil"],
      "Emphasize group harmony, consensus, and collective benefit",
      ["Use 'we' instead of 'you' when possible",
       "Emphasize community impact and shared values",
       "Avoid direct confrontation or criticism",
       "Include context about group consensus"]),
    CultureGroup("individualist", ["english", "french", "dutch"],
      "Focus on personal choice, individual benefit, and direct communication",
      ["Emphasize personal control and choice",
       "Highlight individual benefits and outcomes",
       "Use direct, clear language",
       "Provide actionable personal steps"]),
    CultureGroup("high_context", ["hindi", "arabic", "chinese", "tamil"],
      "Rich context, implicit meaning, relationship-focused",
      ["Provide extensive background context",
       "Use respectful, formal language",
       "Include relationship and hierarchy considerations",
       "Allow for indirect communication patterns"]),
    CultureGroup("low_context", ["english", "french", "spanish"],
      "Direct, explicit, task-focused communication",
      ["Be explicit and direct",
       "Focus on facts and logical progression",
       "Minimize contextual assumptions",
       "Provide clear, actionable information"])
  ]

  const DefaultAdaptation: string := "Use clear, respectful communication"

  /** The adaptations of every group containing the language, in group order. */
  function Collected(groups: seq<CultureGroup>, language: string): (r: seq<string>)
    ensures forall a :: a in r <==> exists g :: g in groups && language in g.languages && a in g.adaptations
  {
    if |groups| == 0 then []
    else
      var rest := Collected(groups[1..], language);
      assert forall g :: g in groups[1..] ==> g in groups;
      assert forall g :: g in groups ==> g == groups[0] || g in groups[1..];
      (if language in groups[0].languages then groups[0].adaptations else []) + rest
  }

  predicate InSomeGroup(groups: seq<CultureGroup>, language: string) {
    exists g :: g in groups && language in g.languages
  }

  /** `get_cultural_adaptations` against a group table. */
  function Adaptations(groups: seq<CultureGroup>, language: string): (r: seq<string>)
    requires forall g :: g in groups ==> |g.adaptations| > 0
    ensures |r| > 0
    ensures !InSomeGroup(groups, language) ==> r == [DefaultAdaptation]
    ensures InSomeGroup(groups, language) ==> r == Collected(groups, language)
  {
    var c := Collected(groups, language);
    CollectedNonEmpty(groups, language);
    if |c| > 0 then c else [DefaultAdaptation]
  }

  lemma CollectedNonEmpty(groups: seq<CultureGroup>, language: string)
    requires forall g :: g in groups ==> |g.adaptations| > 0
    ensures |Collected(groups, language)| > 0 <==> InSomeGroup(groups, language)
  {
    if InSomeGroup(groups, language) {
      var g :| g in groups && language in g.languages;
      assert g.adaptations[0] in Collected(groups, language);
    }
  }

  function CulturalAdaptations(language: string): (r: seq<string>)
    ensures r == Adaptations(CultureGroups, language)
  {
    Adaptations(CultureGroups, language)
  }

  /** Hindi is collectivist and high-context, in that order. */
  lemma HindiAdaptations()
    ensures CulturalAdaptations("hindi") == CultureGroups[0].adaptations + CultureGroups[2].adaptations
  {
    var gs := CultureGroups;
    assert "hindi" in gs[0].languages;
    assert Collected(gs[3..], "hindi") == [] by {
      assert "hindi" !in gs[3].languages;
      assert gs[3..][1..] == [];
    }
    assert Collected(gs[2..], "hindi") == gs[2].adaptations by {
      assert gs[2..][1..] == gs[3..];
    }
    assert Collected(gs[1..], "hindi") == gs[2].adaptations by {
      assert "hindi" !in gs[1].languages;
      assert gs[1..][1..] == gs[2..];
    }
  }

  /** Spanish is in the low-context group only. */
  lemma SpanishAdaptations()
    ensures CulturalAdaptations("spanish") == CultureGroups[3].adaptations
  {
    var gs := CultureGroups;
    assert "spanish" in gs[3].languages;
    assert Collected(gs[3..], "spanish") == gs[3].adaptations by {
      assert gs[3..][1..] == [];
    }
    assert Collected(gs[2..], "spanish") == gs[3].adaptations by {
      assert "spanish" !in gs[2].languages;
      assert gs[2..][1..] == gs[3..];
    }
    assert Collected(gs[1..], "spanish") == gs[3].adaptations by {
      assert "spanish" !in gs[1].languages;
      assert gs[1..][1..] == gs[2..];
    }
    assert "spanish" !in gs[0].languages;
  }

  /** A language in no group gets the default alone. */
  lemma UngroupedAdaptations()
    ensures CulturalAdaptations("german") == [DefaultAdaptation]
  {
    var gs := CultureGroups;
    assert !InSomeGroup(gs, "german") by {
      assert forall g :: g in gs ==> g == gs[0] || g == gs[1] || g == gs[2] || g == gs[3];
    }
  }

  // ---------------------------------------------------------------------
  // Word-overlap similarity
  // ---------------------------------------------------------------------

  /** The Jaccard index of two sets of words; 0 when either is empty. */
  function Jaccard(a: set<string>, b: set<string>): (r: real)
    ensures 0.0 <= r <= 1.0
    ensures a == {} || b == {} ==> r == 0.0
    ensures r == 1.0 <==> a != {} && a == b
    ensures a != {} && b != {} ==> (r > 0.0 <==> a * b != {})
  {
    if a == {} || b == {} then 0.0
    else
      IntersectionWithinUnion(a, b);
      Ratio(|a * b|, |a + b|)
  }

  /** The intersection is no larger than the union, and as large only when
      the two sets are equal. */
  lemma IntersectionWithinUnion(a: set<string>, b: set<string>)
    requires a != {}
    ensures |a * b| <= |a + b| && |a + b| > 0
    ensures |a * b| == |a + b| <==> a == b
  {
    assert |a - b| + |b - a| + |a * b| == |a + b|;
    if |a * b| == |a + b| {
      assert |a - b| == 0 && |b - a| == 0;
      assert a - b == {} && b - a == {};
    }
    var x :| x in a;
    assert x in a + b;
  }

  /** The fallback of `_calculate_semantic_similarity`. */
  function WordOverlap(text1: string, text2: string): (r: real)
    ensures r == Jaccard(WordSet(text1), WordSet(text2))
    ensures 0.0 <= r <= 1.0
  {
    Jaccard(WordSet(text1), WordSet(text2))
  }

  /** The overlap is symmetric and a non-empty text overlaps itself fully. */
  lemma WordOverlapSymmetric(text1: string, text2: string)
    ensures WordOverlap(text1, text2) == WordOverlap(text2, text1)
    ensures WordSet(text1) != {} ==> WordOverlap(text1, text1) == 1.0
  {
    var a, b := WordSet(text1), WordSet(text2);
    assert a * b == b * a && a + b == b + a;
  }
}
