/** Ethical review of responses: phrase-table bias detection, the
    inclusivity scores, the harm-potential score for a list of risk
    categories, and the cultural-sensitivity score.

    Every phrase test is a substring test on the ASCII-lowered text, and
    every score is an exact real. */
module Ethics {
  import opened Text
  import opened Numeric

  datatype BiasType = Gender | Racial | Age | Cultural | Socioeconomic | Religious | Ability | Appearance {
    function Value(): string {
      match this
      case Gender => "gender"
      case Racial => "racial"
      case Age => "age"
      case Cultural => "cultural"
      case Socioeconomic => "socioeconomic"
      case Religious => "religious"
      case Ability => "ability"
      case Appearance => "appearance"
    }
  }

  /** A named list of indicator phrases. */
  datatype Category = Category(name: string, phrases: seq<string>)

  datatype BiasEntry = BiasEntry(biasType: BiasType, categories: seq<Category>)

  /** `bias_indicators`, in the dict's order. */
  const BiasIndicators: seq<BiasEntry> := [
    BiasEntry(Gender, [
      Category("gendered_assumptions", ["he must be", "she probably", "men are better", "women tend to"]),
      Category("gendered_roles", ["male nurse", "female engineer", "working mother", "career woman"]),
      Category("gendered_descriptors", ["bossy", "assertive", "emotional", "aggressive"])]),
    BiasEntry(Racial, [
      Category("stereotypical_associations", ["articulate", "exotic", "urban", "inner city"]),
      Category("coded_language", ["diverse candidate", "cultural fit", "traditional names"]),
      Category("assumptions", ["good at math", "natural athlete", "speaks well"])]),
    BiasEntry(Age, [
      Category("ageist_assumptions", ["too old to learn", "young and inexperienced", "digital native"]),
      Category("age_stereotypes", ["set in their ways", "tech-savvy generation", "wisdom of age"]),
      Category("exclusionary_language", ["fresh perspective", "seasoned professional", "new blood"])]),
    BiasEntry(Cultural, [
      Category("western_centrism", ["civilized", "developed country", "first world"]),
      Category("cultural_assumptions", ["normal behavior", "standard practice", "common sense"]),
      Category("ethnocentric_language", ["exotic cuisine", "foreign customs", "traditional dress"])]),
    BiasEntry(Socioeconomic, [
      Category("class_assumptions", ["afford to", "underprivileged", "disadvantaged"]),
      Category("economic_stereotypes", ["lazy", "unmotivated", "lacking ambition"]),
      Category("privilege_blind_spots", ["just work harder", "pull yourself up", "anyone can succeed"])])
  ]

  /** `_get_mitigation_strategy` of the bias analyser. */
  function BiasMitigation(t: BiasType): string {
    match t
    case Gender => "Use gender-neutral language and avoid gendered assumptions about roles or capabilities"
    case Racial => "Focus on individual qualifications and avoid coded language or stereotypical associations"
    case Age => "Acknowledge diverse experiences across age groups and avoid age-based assumptions"
    case Cultural => "Use inclusive language that doesn't prioritize one cultural perspective"
    case Socioeconomic => "Recognize diverse economic circumstances and avoid class-based assumptions"
    case _ => "Review content for potential bias and use more inclusive language"
  }

  /** The evidence line for one phrase found. */
  function EvidenceLine(category: string, phrase: string): string {
    category + ": '" + phrase + "'"
  }

  function EvidenceIn(category: string, phrases: seq<string>): (r: seq<string>)
    ensures |r| == |phrases|
    ensures forall i :: 0 <= i < |phrases| ==> r[i] == EvidenceLine(category, phrases[i])
  {
    seq(|phrases|, i requires 0 <= i < |phrases| => EvidenceLine(category, phrases[i]))
  }

  /** The evidence lines of every category, category by category. */
  function Evidence(categories: seq<Category>, lowered: string): seq<string> {
    if |categories| == 0 then []
    else EvidenceIn(categories[0].name, Present(categories[0].phrases, lowered)) + Evidence(categories[1..], lowered)
  }

  /** The number of phrases of all categories present in the text. */
  function Hits(categories: seq<Category>, lowered: string): nat {
    if |categories| == 0 then 0
    else CountPresent(categories[0].phrases, lowered) + Hits(categories[1..], lowered)
  }

  /** There is one evidence line per phrase present. */
  lemma {:induction false} EvidencePerHit(categories: seq<Category>, lowered: string)
    ensures |Evidence(categories, lowered)| == Hits(categories, lowered)
  {
    if |categories| > 0 {
      EvidencePerHit(categories[1..], lowered);
    }
  }

  datatype BiasResult = BiasResult(
    biasType: BiasType, detected: bool, confidence: real, evidence: seq<string>, severity: string, mitigation: string)

  /** "high" for three or more hits, "medium" for two, "low" for one. */
  function Severity(hits: nat): string {
    if hits >= 3 then "high" else if hits >= 2 then "medium" else "low"
  }


  /** The result for one bias type with the given evidence. */
  function ResultFor(t: BiasType, evidence: seq<string>): (r: BiasResult)
    ensures r.detected && r.biasType == t && r.evidence == evidence
    ensures r.confidence == Capped(|evidence| as real / 3.0) && 0.0 <= r.confidence <= 1.0
    ensures |evidence| > 0 ==> r.confidence > 0.0
    ensures r.mitigation == BiasMitigation(t)
  {
    BiasResult(t, true, Capped(|evidence| as real / 3.0), evidence, Severity(|evidence|), BiasMitigation(t))
  }

  /** A finding as the analyser reports it: detected, with evidence, and
      with a severity and confidence that follow from the evidence count. */
  predicate WellFormed(r: BiasResult) {
    && r.detected && |r.evidence| > 0
    && r.severity == Severity(|r.evidence|)
    && r.confidence == Capped(|r.evidence| as real / 3.0)
  }

  /** The table entries with at least one hit, in table order. */
  function WithHits(table: seq<BiasEntry>, lowered: string): (f: seq<BiasEntry>)
    ensures |f| <= |table|
    ensures forall e :: e in f <==> e in table && Hits(e.categories, lowered) > 0
  {
    if |table| == 0 then []
    else
      assert forall e :: e in table <==> e == table[0] || e in table[1..];
      (if Hits(table[0].categories, lowered) > 0 then [table[0]] else []) + WithHits(table[1..], lowered)
  }

  /** The result of each entry, in order; an entry with hits gives a
      well-formed result. */
  function Results(entries: seq<BiasEntry>, lowered: string): (r: seq<BiasResult>)
    ensures |r| == |entries|
    ensures forall k :: 0 <= k < |r| ==> r[k] == ResultFor(entries[k].biasType, Evidence(entries[k].categories, lowered))
    ensures forall k :: 0 <= k < |r| && Hits(entries[k].categories, lowered) > 0 ==> WellFormed(r[k])
  {
    EvidenceCounts(entries, lowered);
    seq(|entries|, k requires 0 <= k < |entries| => ResultFor(entries[k].biasType, Evidence(entries[k].categories, lowered)))
  }

  lemma EvidenceCounts(entries: seq<BiasEntry>, lowered: string)
    ensures forall k :: 0 <= k < |entries| ==> |Evidence(entries[k].categories, lowered)| == Hits(entries[k].categories, lowered)
  {
    forall k | 0 <= k < |entries| {
      EvidencePerHit(entries[k].categories, lowered);
    }
  }

  /** The results for the entries of `table` with a hit, each well formed. */
  function AnalyzeBiasWith(table: seq<BiasEntry>, lowered: string): (r: seq<BiasResult>)
    ensures var f := WithHits(table, lowered);
      && |r| == |f| <= |table|
      && forall k :: 0 <= k < |r| ==> r[k].biasType == f[k].biasType && r[k].evidence == Evidence(f[k].categories, lowered)
    ensures forall k :: 0 <= k < |r| ==> WellFormed(r[k])
  {
    var f := WithHits(table, lowered);
    assert forall k :: 0 <= k < |f| ==> f[k] in f;
    Results(f, lowered)
  }

  /** `analyze_bias`: one well-formed result per tabled bias type with at
      least one phrase present, in table order. */
  function AnalyzeBias(text: string): (r: seq<BiasResult>)
    ensures var f := WithHits(BiasIndicators, Lower(text));
      && |r| == |f| <= |BiasIndicators|
      && forall k :: 0 <= k < |r| ==> r[k].biasType == f[k].biasType && r[k].evidence == Evidence(f[k].categories, Lower(text))
    ensures forall k :: 0 <= k < |r| ==> WellFormed(r[k])
  {
    AnalyzeBiasWith(BiasIndicators, Lower(text))
  }

  lemma TabledTypes()
    ensures forall e :: e in BiasIndicators ==> e.biasType !in {Religious, Ability, Appearance}
  {
  }

  /** Religious, ability and appearance bias have no phrases in the table
      and are never reported. */
  lemma UntabledNeverReported(text: string)
    ensures forall k :: 0 <= k < |AnalyzeBias(text)| ==> AnalyzeBias(text)[k].biasType !in {Religious, Ability, Appearance}
  {
    var f := WithHits(BiasIndicators, Lower(text));
    forall k | 0 <= k < |AnalyzeBias(text)|
      ensures AnalyzeBias(text)[k].biasType !in {Religious, Ability, Appearance}
    {
      assert f[k] in f;
      TabledTypes();
    }
  }

  // ---------------------------------------------------------------------
  // Inclusivity
  // ---------------------------------------------------------------------

  const DiverseRepresentation: seq<string> := ["people of all backgrounds", "diverse perspectives", "various experiences"]
  const InclusiveLanguage: seq<string> := ["everyone", "all individuals", "people with disabilities", "various abilities"]
  const CulturalAwareness: seq<string> := ["different cultures", "cultural differences", "diverse traditions"]
  const Accessibility: seq<string> := ["accessible to", "accommodations", "various needs", "different abilities"]

  const ExclusionaryPatterns: seq<string> := [
    "normal people", "typical person", "standard approach", "everyone knows",
    "obviously", "common sense", "naturally", "of course"]

  const WesternCentricTerms: seq<string> := ["civilized", "developed", "first world", "third world"]

  const HarmRiskIndicators: seq<string> := [
    "should feel ashamed", "not normal", "wrong with you", "your fault",
    "inferior", "superior", "less capable", "not qualified"]

  /** The share of `terms` present, as an exact real. */
  function Share(terms: seq<string>, lowered: string): (r: real)
    requires |terms| > 0
    ensures 0.0 <= r <= 1.0
    ensures r == CountPresent(terms, lowered) as real / |terms| as real
  {
    CountPresentBounds(terms, lowered);
    Ratio(CountPresent(terms, lowered), |terms|)
  }

  /** `_calculate_representation_score`: twice the share, capped at 1. */
  function RepresentationScore(lowered: string): (r: real)
    ensures 0.0 <= r <= 1.0
    ensures r == 1.0 <==> CountPresent(DiverseRepresentation, lowered) >= 2
    ensures r == 0.0 <==> !AnyPresent(DiverseRepresentation, lowered)
    ensures CountPresent(DiverseRepresentation, lowered) <= 1 ==> r * 3.0 == 2.0 * CountPresent(DiverseRepresentation, lowered) as real
  {
    CountPresentBounds(DiverseRepresentation, lowered);
    Capped(Share(DiverseRepresentation, lowered) * 2.0)
  }

  /** `_calculate_language_inclusivity`: 0.5, plus the inclusive share, less
      0.2 per exclusionary pattern, clamped. */
  function LanguageScore(lowered: string): (r: real)
    ensures 0.0 <= r <= 1.0
    ensures !AnyPresent(ExclusionaryPatterns, lowered) ==> r >= 0.5
    ensures !AnyPresent(InclusiveLanguage, lowered) ==> r <= 0.5
    ensures r == Clamp(0.5 + Share(InclusiveLanguage, lowered) - CountPresent(ExclusionaryPatterns, lowered) as real * 0.2)
  {
    CountPresentBounds(ExclusionaryPatterns, lowered);
    CountPresentBounds(InclusiveLanguage, lowered);
    Clamp(0.5 + Share(InclusiveLanguage, lowered) - CountPresent(ExclusionaryPatterns, lowered) as real * 0.2)
  }

  /** `_calculate_accessibility_score`. */
  function AccessibilityScore(lowered: string): (r: real)
    ensures 0.0 <= r <= 1.0
    ensures r == 1.0 <==> CountPresent(Accessibility, lowered) >= 2
    ensures r == 0.0 <==> !AnyPresent(Accessibility, lowered)
    ensures CountPresent(Accessibility, lowered) <= 2 ==> r * 2.0 == CountPresent(Accessibility, lowered) as real
  {
    CountPresentBounds(Accessibility, lowered);
    Capped(Share(Accessibility, lowered) * 2.0)
  }

  /** `_calculate_cultural_sensitivity` of the validator. */
  function CulturalScore(lowered: string): (r: real)
    ensures 0.0 <= r <= 1.0
    ensures !AnyPresent(WesternCentricTerms, lowered) ==> r >= 0.5
    ensures !AnyPresent(CulturalAwareness, lowered) ==> r <= 0.5
    ensures r == Clamp(0.5 + Share(CulturalAwareness, lowered) - Share(WesternCentricTerms, lowered))
  {
    CountPresentBounds(WesternCentricTerms, lowered);
    CountPresentBounds(CulturalAwareness, lowered);
    Clamp(0.5 + Share(CulturalAwareness, lowered) - Share(WesternCentricTerms, lowered))
  }

  /** More text never lowers the representation score. */
  lemma RepresentationGrows(a: string, b: string)
    ensures RepresentationScore(a) <= RepresentationScore(a + b) && RepresentationScore(b) <= RepresentationScore(a + b)
  {
    CountPresentGrows(DiverseRepresentation, a, b);
    var sa, sb, sab := Share(DiverseRepresentation, a), Share(DiverseRepresentation, b), Share(DiverseRepresentation, a + b);
    assert sa <= sab && sb <= sab;
    CappedMonotone(sa * 2.0, sab * 2.0);
    CappedMonotone(sb * 2.0, sab * 2.0);
  }

  /** More text never lowers the accessibility score. */
  lemma AccessibilityGrows(a: string, b: string)
    ensures AccessibilityScore(a) <= AccessibilityScore(a + b) && AccessibilityScore(b) <= AccessibilityScore(a + b)
  {
    CountPresentGrows(Accessibility, a, b);
    var sa, sb, sab := Share(Accessibility, a), Share(Accessibility, b), Share(Accessibility, a + b);
    assert sa <= sab && sb <= sab;
    CappedMonotone(sa * 2.0, sab * 2.0);
    CappedMonotone(sb * 2.0, sab * 2.0);
  }

  /** A text with every inclusive term of another, and none of the
      exclusionary patterns the other lacks, scores at least as high. */
  lemma LanguageScoreOrder(a: string, b: string)
    requires forall k :: k in InclusiveLanguage && Contains(a, k) ==> Contains(b, k)
    requires forall k :: k in ExclusionaryPatterns && Contains(b, k) ==> Contains(a, k)
    ensures LanguageScore(a) <= LanguageScore(b)
  {
    CountPresentMonotone(InclusiveLanguage, a, b);
    CountPresentMonotone(ExclusionaryPatterns, b, a);
    var sa, sb := Share(InclusiveLanguage, a), Share(InclusiveLanguage, b);
    var xa, xb := CountPresent(ExclusionaryPatterns, a) as real, CountPresent(ExclusionaryPatterns, b) as real;
    assert sa <= sb && xb <= xa;
    ClampMonotone(0.5 + sa - xa * 0.2, 0.5 + sb - xb * 0.2);
  }

  /** A text with every cultural-awareness term of another, and none of the
      western-centric terms the other lacks, scores at least as high. */
  lemma CulturalScoreOrder(a: string, b: string)
    requires forall k :: k in CulturalAwareness && Contains(a, k) ==> Contains(b, k)
    requires forall k :: k in WesternCentricTerms && Contains(b, k) ==> Contains(a, k)
    ensures CulturalScore(a) <= CulturalScore(b)
  {
    CountPresentMonotone(CulturalAwareness, a, b);
    CountPresentMonotone(WesternCentricTerms, b, a);
    var sa, sb := Share(CulturalAwareness, a), Share(CulturalAwareness, b);
    var wa, wb := Share(WesternCentricTerms, a), Share(WesternCentricTerms, b);
    assert sa <= sb && wb <= wa;
    ClampMonotone(0.5 + sa - wa, 0.5 + sb - wb);
  }

  /** `_assess_harm_risk`: a fifth per indicator, capped at 1. */
  function HarmRisk(lowered: string): (r: real)
    ensures 0.0 <= r <= 1.0
    ensures r == 0.0 <==> !AnyPresent(HarmRiskIndicators, lowered)
    ensures r == 1.0 <==> CountPresent(HarmRiskIndicators, lowered) >= 5
    ensures CountPresent(HarmRiskIndicators, lowered) <= 5 ==> r * 5.0 == CountPresent(HarmRiskIndicators, lowered) as real
  {
    CountPresentBounds(HarmRiskIndicators, lowered);
    Capped(CountPresent(HarmRiskIndicators, lowered) as real / 5.0)
  }

  /** More text never lowers the harm risk: every indicator found in a part
      is found in the whole. */
  lemma HarmRiskGrows(a: string, b: string)
    ensures HarmRisk(a) <= HarmRisk(a + b) && HarmRisk(b) <= HarmRisk(a + b)
  {
    CountPresentGrows(HarmRiskIndicators, a, b);
    CappedMonotone(CountPresent(HarmRiskIndicators, a) as real / 5.0, CountPresent(HarmRiskIndicators, a + b) as real / 5.0);
    CappedMonotone(CountPresent(HarmRiskIndicators, b) as real / 5.0, CountPresent(HarmRiskIndicators, a + b) as real / 5.0);
  }

  datatype InclusivityAssessment = InclusivityAssessment(
    overall: real, representation: real, language: real, accessibility: real, cultural: real, harmRisk: real)

  /** `assess_inclusivity`: the overall score is the mean of the four
      scores and the complement of the harm risk, so it lies in `[0, 1]`. */
  function AssessInclusivity(text: string): (r: InclusivityAssessment)
    ensures 0.0 <= r.representation <= 1.0 && 0.0 <= r.language <= 1.0 && 0.0 <= r.accessibility <= 1.0
    ensures 0.0 <= r.cultural <= 1.0 && 0.0 <= r.harmRisk <= 1.0
    ensures var t := Lower(text);
      && r.representation == RepresentationScore(t) && r.language == LanguageScore(t)
      && r.accessibility == AccessibilityScore(t) && r.cultural == CulturalScore(t)
      && r.harmRisk == HarmRisk(t)
    ensures r.overall * 5.0 == r.representation + r.language + r.accessibility + r.cultural + (1.0 - r.harmRisk)
    ensures 0.0 <= r.overall <= 1.0
  {
    var t := Lower(text);
    var rep, lang, acc, cul, harm := RepresentationScore(t), LanguageScore(t), AccessibilityScore(t), CulturalScore(t), HarmRisk(t);
    InclusivityAssessment((rep + lang + acc + cul + (1.0 - harm)) / 5.0, rep, lang, acc, cul, harm)
  }

  /** A perfect inclusivity score needs every part perfect: at least two
      representation and two accessibility terms, full language and cultural
      scores, and no harm-risk indicator. */
  lemma InclusivityPerfect(text: string)
    ensures var r, t := AssessInclusivity(text), Lower(text);
      r.overall == 1.0 <==>
        && CountPresent(DiverseRepresentation, t) >= 2 && CountPresent(Accessibility, t) >= 2
        && LanguageScore(t) == 1.0 && CulturalScore(t) == 1.0
        && !AnyPresent(HarmRiskIndicators, t)
  {
    var r := AssessInclusivity(text);
    assert r.overall == 1.0 <==>
      r.representation == 1.0 && r.language == 1.0 && r.accessibility == 1.0 && r.cultural == 1.0 && r.harmRisk == 0.0;
  }

  // ---------------------------------------------------------------------
  // Harm potential and cultural sensitivity of a response
  // ---------------------------------------------------------------------

  datatype HarmCategory = Discrimination | Stereotyping | Misinformation | Exclusion | Psychological | Social

  /** The indicator phrases of a harm category; stereotyping and social harm
      have none. */
  function HarmIndicators(c: HarmCategory): seq<string> {
    match c
    case Psychological => ["should feel bad", "wrong with you", "your fault", "not good enough"]
    case Discrimination => ["not suitable", "doesn't belong", "not the right fit", "not qualified"]
    case Misinformation => ["always true", "never works", "definitely will", "guaranteed"]
    case Exclusion => ["normal people", "typical person", "everyone knows", "obviously"]
    case _ => []
  }

  /** The indicators found, summed over the listed categories (a category
      listed twice counts twice). */
  function HarmHits(risks: seq<HarmCategory>, lowered: string): nat {
    if |risks| == 0 then 0 else CountPresent(HarmIndicators(risks[0]), lowered) + HarmHits(risks[1..], lowered)
  }

  /** `_assess_harm_potential`: found indicators over three per listed
      category, capped at 1; no categories give 0. */
  function AssessHarmPotential(text: string, risks: seq<HarmCategory>): (r: real)
    ensures 0.0 <= r <= 1.0
    ensures |risks| == 0 ==> r == 0.0
    ensures |risks| > 0 ==> r == Capped(HarmHits(risks, Lower(text)) as real / (3 * |risks|) as real)
    ensures r == 0.0 <==> HarmHits(risks, Lower(text)) == 0
  {
    var hits := HarmHits(risks, Lower(text));
    if |risks| == 0 then
      HarmHitsEmpty(risks, Lower(text));
      0.0
    else Capped(hits as real / (3 * |risks|) as real)
  }

  lemma HarmHitsEmpty(risks: seq<HarmCategory>, lowered: string)
    requires |risks| == 0
    ensures HarmHits(risks, lowered) == 0
  {
  }

  /** Categories without indicators never add harm. */
  lemma {:induction false} UntabledHarmIsZero(text: string, risks: seq<HarmCategory>)
    requires forall i :: 0 <= i < |risks| ==> risks[i] in {Stereotyping, Social}
    ensures AssessHarmPotential(text, risks) == 0.0
  {
    UntabledHits(risks, Lower(text));
  }

  lemma {:induction false} UntabledHits(risks: seq<HarmCategory>, lowered: string)
    requires forall i :: 0 <= i < |risks| ==> risks[i] in {Stereotyping, Social}
    ensures HarmHits(risks, lowered) == 0
  {
    if |risks| > 0 {
      assert risks[0] in {Stereotyping, Social};
      assert Present([], lowered) == [];
      UntabledHits(risks[1..], lowered);
    }
  }

  const SensitiveIndicators: seq<string> := [
    "different cultures", "cultural differences", "various traditions",
    "diverse backgrounds", "different perspectives", "cultural context"]

  const InsensitiveIndicators: seq<string> := [
    "normal way", "standard approach", "common sense", "obviously",
    "civilized", "primitive", "backward", "advanced society"]

  /** `_evaluate_cultural_sensitivity`: 0.5 plus the sensitive share less the
      insensitive share, clamped to `[0, 1]`. */
  function EvaluateCulturalSensitivity(text: string): (r: real)
    ensures 0.0 <= r <= 1.0
    ensures !AnyPresent(InsensitiveIndicators, Lower(text)) ==> r >= 0.5
    ensures !AnyPresent(SensitiveIndicators, Lower(text)) ==> r <= 0.5
    ensures r == Clamp(0.5 + Share(SensitiveIndicators, Lower(text)) - Share(InsensitiveIndicators, Lower(text)))
  {
    var t := Lower(text);
    CountPresentBounds(SensitiveIndicators, t);
    CountPresentBounds(InsensitiveIndicators, t);
    Clamp(0.5 + CountPresent(SensitiveIndicators, t) as real / 6.0 - CountPresent(InsensitiveIndicators, t) as real / 8.0)
  }

  /** A text with every sensitive indicator of another, and none of the
      insensitive indicators the other lacks, scores at least as high. */
  lemma CulturalSensitivityOrder(a: string, b: string)
    requires forall k :: k in SensitiveIndicators && Contains(Lower(a), k) ==> Contains(Lower(b), k)
    requires forall k :: k in InsensitiveIndicators && Contains(Lower(b), k) ==> Contains(Lower(a), k)
    ensures EvaluateCulturalSensitivity(a) <= EvaluateCulturalSensitivity(b)
  {
    CountPresentMonotone(SensitiveIndicators, Lower(a), Lower(b));
    CountPresentMonotone(InsensitiveIndicators, Lower(b), Lower(a));
    var sa, sb := Share(SensitiveIndicators, Lower(a)), Share(SensitiveIndicators, Lower(b));
    var ia, ib := Share(InsensitiveIndicators, Lower(a)), Share(InsensitiveIndicators, Lower(b));
    assert sa <= sb && ib <= ia;
    ClampMonotone(0.5 + sa - ia, 0.5 + sb - ib);
  }

  /** With neither kind of indicator the score is the base 0.5; with every
      sensitive and no insensitive indicator it is 1. */
  lemma CulturalSensitivityExtremes(text: string)
    ensures var t := Lower(text);
      !AnyPresent(SensitiveIndicators, t) && !AnyPresent(InsensitiveIndicators, t) ==> EvaluateCulturalSensitivity(text) == 0.5
    ensures var t := Lower(text);
      (forall k :: k in SensitiveIndicators ==> Contains(t, k)) && !AnyPresent(InsensitiveIndicators, t) ==>
        EvaluateCulturalSensitivity(text) == 1.0
  {
    var t := Lower(text);
    CountPresentBounds(SensitiveIndicators, t);
    CountPresentBounds(InsensitiveIndicators, t);
    if forall k :: k in SensitiveIndicators ==> Contains(t, k) {
      CountPresentAll(SensitiveIndicators, t);
    }
  }
}
