/** Task-specific prompting: keyword classification of a task description
    into a domain, the per-domain generation settings, and the scores given
    to a response (format compliance, coherence, domain appropriateness and
    the quality of an integration step). */
module TaskDomains {
  import opened Text
  import opened Numeric
  import opened Wrappers

  datatype TaskDomain = Summarization | QuestionAnswering | CodeGeneration | CreativeWriting | DataAnalysis | TechnicalWriting {
    function Value(): string {
      match this
      case Summarization => "summarization"
      case QuestionAnswering => "qa"
      case CodeGeneration => "code"
      case CreativeWriting => "creative"
      case DataAnalysis => "analysis"
      case TechnicalWriting => "technical"
    }
  }

  /** The domains in the order of the classifier's keyword table. */
  const Domains: seq<TaskDomain> :=
    [Summarization, QuestionAnswering, CodeGeneration, CreativeWriting, DataAnalysis, TechnicalWriting]

  /** `domain_keywords`. */
  function DomainKeywords(d: TaskDomain): seq<string> {
    match d
    case Summarization => ["summarize", "abstract", "brief", "overview", "condense"]
    case QuestionAnswering => ["question", "answer", "explain", "what", "how", "why"]
    case CodeGeneration => ["code", "function", "programming", "implement", "algorithm"]
    case CreativeWriting => ["story", "creative", "narrative", "character", "plot"]
    case DataAnalysis => ["analyze", "data", "statistics", "trends", "insights"]
    case TechnicalWriting => ["documentation", "specification", "technical", "manual"]
  }

  /** The keyword hits of each domain, in table order. */
  function DomainScores(lowered: string): (s: seq<int>)
    ensures |s| == |Domains|
    ensures forall i :: 0 <= i < |Domains| ==> s[i] == CountPresent(DomainKeywords(Domains[i]), lowered)
  {
    seq(|Domains|, i requires 0 <= i < |Domains| => CountPresent(DomainKeywords(Domains[i]), lowered))
  }

  /** `classify_task`: the first domain with the most keyword hits. */
  function ClassifyTask(description: string): (d: TaskDomain)
    ensures var s := DomainScores(Lower(description));
      exists j :: 0 <= j < |Domains| && d == Domains[j]
        && (forall i :: 0 <= i < |Domains| ==> s[i] <= s[j])
        && (forall i :: 0 <= i < j ==> s[i] < s[j])
  {
    Domains[ArgMaxFirst(DomainScores(Lower(description)))]
  }

  /** A description without any keyword is a summarisation task. */
  lemma NoKeywordsIsSummarization(description: string)
    requires forall d :: d in Domains ==> !AnyPresent(DomainKeywords(d), Lower(description))
    ensures ClassifyTask(description) == Summarization
  {
    var s := DomainScores(Lower(description));
    forall i | 0 <= i < |Domains| ensures s[i] == 0 {
      assert Domains[i] in Domains;
      CountPresentBounds(DomainKeywords(Domains[i]), Lower(description));
    }
    ArgMaxFirstUnique(s, 0);
  }

  /** The classification is the domain with strictly the most hits when
      there is one. */
  lemma StrictWinnerClassified(description: string, j: nat)
    requires j < |Domains|
    requires var s := DomainScores(Lower(description));
      forall i :: 0 <= i < |Domains| && i != j ==> s[i] < s[j]
    ensures ClassifyTask(description) == Domains[j]
  {
    ArgMaxFirstUnique(DomainScores(Lower(description)), j);
  }

  // ---------------------------------------------------------------------
  // Generation settings
  // ---------------------------------------------------------------------

  datatype Strategy = Strategy(temperature: real, maxTokens: nat, focusAreas: seq<string>, validationCriteria: seq<string>)

  const DefaultStrategy: Strategy :=
    Strategy(0.5, 350, ["quality", "relevance"], ["completeness", "accuracy"])

  /** `get_optimization_strategy`: four configured domains, the default for
      the others. */
  function OptimizationStrategy(d: TaskDomain): (s: Strategy)
    ensures d in {DataAnalysis, TechnicalWriting} <==> s == DefaultStrategy
    ensures 200 <= s.maxTokens <= 500 && 0.0 < s.temperature < 1.0
  {
    match d
    case Summarization =>
      Strategy(0.3, 200, ["key_points", "conciseness", "accuracy"], ["length_compliance", "information_retention"])
    case QuestionAnswering =>
      Strategy(0.2, 300, ["accuracy", "completeness", "clarity"], ["factual_accuracy", "relevance", "directness"])
    case CodeGeneration =>
      Strategy(0.1, 400, ["syntax_accuracy", "functionality", "best_practices"], ["syntax_validity", "logic_correctness", "documentation"])
    case CreativeWriting =>
      Strategy(0.8, 500, ["creativity", "engagement", "narrative_flow"], ["originality", "coherence", "entertainment_value"])
    case _ => DefaultStrategy
  }

  // ---------------------------------------------------------------------
  // Response scores
  // ---------------------------------------------------------------------

  /** More than 120% of the token budget, in words: `words > max_tokens * 1.2`. */
  predicate OverBudget(words: nat, maxTokens: nat) {
    words as real > maxTokens as real * 1.2
  }

  predicate CodeWithoutMarkers(d: TaskDomain, response: string) {
    d == CodeGeneration && !Contains(response, "```") && !Contains(response, "def ")
  }

  predicate SummaryTooLong(d: TaskDomain, response: string) {
    d == Summarization && |Split(response, '.')| > 5
  }

  /** `_check_format_compliance`: 1.0 less 0.2 over budget, less 0.3 for code
      without a fence or `def `, less 0.2 for a summary of more than five
      '.'-pieces; at most one domain check applies, so the floor at 0 never
      binds. */
  function FormatCompliance(d: TaskDomain, response: string, s: Strategy): (r: real)
    ensures 0.5 <= r <= 1.0
    ensures r == 1.0 - (if OverBudget(WordCount(response), s.maxTokens) then 0.2 else 0.0)
                     - (if CodeWithoutMarkers(d, response) then 0.3 else 0.0)
                     - (if SummaryTooLong(d, response) then 0.2 else 0.0)
    ensures r == 1.0 <==> !OverBudget(WordCount(response), s.maxTokens) && !CodeWithoutMarkers(d, response) && !SummaryTooLong(d, response)
  {
    var score := 1.0 - (if OverBudget(WordCount(response), s.maxTokens) then 0.2 else 0.0);
    var score := if d == CodeGeneration then
                   (if !Contains(response, "```") && !Contains(response, "def ") then score - 0.3 else score)
                 else if d == Summarization then
                   (if |Split(response, '.')| > 5 then score - 0.2 else score)
                 else score;
    if score < 0.0 then 0.0 else score
  }

  const TransitionWords: seq<string> := ["however", "therefore", "additionally", "furthermore", "moreover", "consequently"]


  /** `_check_coherence`: a third per transition word present, capped at 1. */
  function Coherence(text: string): (r: real)
    ensures 0.0 <= r <= 1.0
    ensures r == 1.0 <==> CountPresent(TransitionWords, Lower(text)) >= 3
    ensures r == 0.0 <==> !AnyPresent(TransitionWords, Lower(text))
    ensures CountPresent(TransitionWords, Lower(text)) <= 3 ==> r * 3.0 == CountPresent(TransitionWords, Lower(text)) as real
  {
    CountPresentBounds(TransitionWords, Lower(text));
    Capped(CountPresent(TransitionWords, Lower(text)) as real / 3.0)
  }

  /** More text never lowers coherence: every transition word found in a
      part is found in the whole. */
  lemma CoherenceGrows(a: string, b: string)
    ensures Coherence(a) <= Coherence(a + b) && Coherence(b) <= Coherence(a + b)
  {
    LowerAppend(a, b);
    CountPresentGrows(TransitionWords, Lower(a), Lower(b));
    var na, nb, nab := CountPresent(TransitionWords, Lower(a)), CountPresent(TransitionWords, Lower(b)), CountPresent(TransitionWords, Lower(a + b));
    CappedMonotone(na as real / 3.0, nab as real / 3.0);
    CappedMonotone(nb as real / 3.0, nab as real / 3.0);
  }

  /** `_check_domain_appropriateness`: the share of the domain's keywords
      present; the cap never binds because the count cannot exceed the
      number of keywords. */
  function DomainAppropriateness(d: TaskDomain, text: string): (r: real)
    ensures 0.0 <= r <= 1.0
    ensures r == CountPresent(DomainKeywords(d), Lower(text)) as real / |DomainKeywords(d)| as real
    ensures r == 1.0 <==> forall k :: k in DomainKeywords(d) ==> Contains(Lower(text), k)
  {
    var kws := DomainKeywords(d);
    var matches := CountPresent(kws, Lower(text));
    KeywordsDistinct(d);
    CountPresentBounds(kws, Lower(text));
    AllPresentIff(kws, Lower(text));
    var share := Ratio(matches, |kws|);
    assert Max(1, |kws|) == |kws|;
    Capped(share)
  }

  /** Each domain has at least four keywords and none repeats. */
  lemma KeywordsDistinct(d: TaskDomain)
    ensures |DomainKeywords(d)| >= 4
    ensures forall i, j :: 0 <= i < j < |DomainKeywords(d)| ==> DomainKeywords(d)[i] != DomainKeywords(d)[j]
  {
  }

  const CodeIndicators: seq<string> := ["def ", "function", "return", "if ", "==", "for ", "while "]
  const NarrativeIndicators: seq<string> := ["character", "story", "scene", "dialogue", "plot"]

  /** The relevance of the domains without a check of their own. */
  const DefaultRelevance: real := 0.7

  /** The share of the input's distinct words that the response repeats,
      tripled and capped at 1. */
  function SummaryRelevance(response: string, input: string): (r: real)
    requires WordSet(input) != {}
    ensures 0.0 <= r <= 1.0
    ensures var n, k := |WordSet(input)|, |WordSet(input) * WordSet(response)|;
      && (r == 1.0 <==> 3 * k >= n)
      && (3 * k <= n ==> r * n as real == 3.0 * k as real)
      && (r == 0.0 <==> WordSet(input) * WordSet(response) == {})
  {
    var n, k := |WordSet(input)|, |WordSet(input) * WordSet(response)|;
    TripledShare(k, n);
    Capped(k as real / n as real * 3.0)
  }

  /** `k / n * 3` reaches 1 exactly when `3k >= n`, and below that times `n`
      it is `3k`. */
  lemma TripledShare(k: nat, n: nat)
    requires n > 0
    ensures var x := k as real / n as real * 3.0;
      && (x >= 1.0 <==> 3 * k >= n)
      && x * n as real == 3.0 * k as real
      && (x == 0.0 <==> k == 0)
  {
    var x := k as real / n as real * 3.0;
    assert x * n as real == 3.0 * k as real;
    if x >= 1.0 {
      assert x * n as real >= n as real;
    } else {
      assert x * n as real < n as real;
    }
  }

  /** `_calculate_relevance_score`. A summary of an input with no words
      divides by zero, which raises: the result is then `None`. Code and
      creative responses score the share of their indicators present, other
      domains a fixed 0.7. */
  function Relevance(d: TaskDomain, response: string, input: string): (r: Option<real>)
    ensures r.None? <==> d == Summarization && WordSet(input) == {}
    ensures r.Some? ==> 0.0 <= r.value <= 1.0
    ensures r.Some? && d == Summarization ==> r.value == SummaryRelevance(response, input)
    ensures d == CodeGeneration ==> r.Some? && r.value * 7.0 == CountPresent(CodeIndicators, Lower(response)) as real
    ensures d == CreativeWriting ==> r.Some? && r.value * 5.0 == CountPresent(NarrativeIndicators, Lower(response)) as real
    ensures d !in {Summarization, CodeGeneration, CreativeWriting} ==> r == Some(DefaultRelevance)
  {
    var lowered := Lower(response);
    match d
    case Summarization => if WordSet(input) == {} then None else Some(SummaryRelevance(response, input))
    case CodeGeneration =>
      CountPresentBounds(CodeIndicators, lowered);
      Some(Capped(CountPresent(CodeIndicators, lowered) as real / 7.0))
    case CreativeWriting =>
      CountPresentBounds(NarrativeIndicators, lowered);
      Some(Capped(CountPresent(NarrativeIndicators, lowered) as real / 5.0))
    case _ => Some(DefaultRelevance)
  }

  /** A summary that repeats every input word another summary repeats
      scores at least as high. */
  lemma SummaryRelevanceMonotone(r1: string, r2: string, input: string)
    requires WordSet(input) != {}
    requires WordSet(input) * WordSet(r1) <= WordSet(input) * WordSet(r2)
    ensures SummaryRelevance(r1, input) <= SummaryRelevance(r2, input)
  {
    var n := |WordSet(input)|;
    var k1, k2 := |WordSet(input) * WordSet(r1)|, |WordSet(input) * WordSet(r2)|;
    SubsetCardinality(WordSet(input) * WordSet(r1), WordSet(input) * WordSet(r2));
    ScaledShareMonotone(k1, k2, n);
    CappedMonotone(k1 as real / n as real * 3.0, k2 as real / n as real * 3.0);
  }

  lemma SubsetCardinality(a: set<string>, b: set<string>)
    requires a <= b
    ensures |a| <= |b|
  {
    assert b == a + (b - a);
  }

  lemma ScaledShareMonotone(k1: nat, k2: nat, n: nat)
    requires k1 <= k2 && n > 0
    ensures k1 as real / n as real * 3.0 <= k2 as real / n as real * 3.0
  {
  }

  /** More response text never lowers a code or creative relevance: every
      indicator found in a part is found in the whole. */
  lemma IndicatorRelevanceGrows(d: TaskDomain, a: string, b: string, input: string)
    requires d == CodeGeneration || d == CreativeWriting
    ensures Relevance(d, a, input).value <= Relevance(d, a + b, input).value
    ensures Relevance(d, b, input).value <= Relevance(d, a + b, input).value
  {
    LowerAppend(a, b);
    var kws := if d == CodeGeneration then CodeIndicators else NarrativeIndicators;
    CountPresentGrows(kws, Lower(a), Lower(b));
  }

  datatype TaskPerformance = TaskPerformance(
    domain: TaskDomain, accuracy: real, relevance: real, formatCompliance: real, executionTime: real, outputLength: nat)

  /** The accuracy every response is given, for want of a reference answer. */
  const PlaceholderAccuracy: real := 0.8

  /** `_evaluate_task_performance`: the response's word count, its relevance
      and format compliance, and the placeholder accuracy and time; `None`
      when the relevance score raises. */
  function EvaluateTaskPerformance(d: TaskDomain, response: string, input: string, s: Strategy): (r: Option<TaskPerformance>)
    ensures r.None? <==> Relevance(d, response, input).None?
    ensures r.Some? ==>
      && r.value.domain == d && r.value.outputLength == WordCount(response)
      && r.value.relevance == Relevance(d, response, input).value
      && r.value.formatCompliance == FormatCompliance(d, response, s)
      && r.value.accuracy == PlaceholderAccuracy && r.value.executionTime == 0.0
    ensures r.Some? ==> 0.0 <= r.value.relevance <= 1.0 && 0.5 <= r.value.formatCompliance <= 1.0
  {
    match Relevance(d, response, input)
    case None => None
    case Some(relevance) =>
      Some(TaskPerformance(d, PlaceholderAccuracy, relevance, FormatCompliance(d, response, s), 0.0, WordCount(response)))
  }

  datatype StepScores = StepScores(completeness: real, coherence: real, domainAppropriateness: real, quality: real)

  /** `_evaluate_integration_step`: the quality is the mean of the three
      scores. */
  function EvaluateIntegrationStep(d: TaskDomain, response: string, s: Strategy): (r: StepScores)
    requires s.maxTokens > 0
    ensures r.completeness == Capped(WordCount(response) as real / s.maxTokens as real)
    ensures r.coherence == Coherence(response) && r.domainAppropriateness == DomainAppropriateness(d, response)
    ensures r.quality * 3.0 == r.completeness + r.coherence + r.domainAppropriateness
    ensures 0.0 <= r.quality <= 1.0
  {
    var completeness := Capped(Ratio(WordCount(response), s.maxTokens));
    var coherence := Coherence(response);
    var appropriateness := DomainAppropriateness(d, response);
    MeanOfThree(completeness, coherence, appropriateness);
    StepScores(completeness, coherence, appropriateness, (completeness + coherence + appropriateness) / 3.0)
  }

  lemma MeanOfThree(a: real, b: real, c: real)
    requires 0.0 <= a <= 1.0 && 0.0 <= b <= 1.0 && 0.0 <= c <= 1.0
    ensures 0.0 <= (a + b + c) / 3.0 <= 1.0
  {
  }
}
