/** Evaluating prompt effectiveness: the seven metric weights and the
    quality rating of the weighted score, concept matching, the accuracy,
    consistency and efficiency metrics, and the ranking of several prompts
    by their scores.

    Regular-expression searches are the `Matcher` parameter; the relevance,
    completeness, clarity and creativity metrics, which rest on embeddings or
    on regular expressions, enter only as given scores. */
module Evaluation {
  import opened Oracles
  import opened Text
  import opened Wrappers
  import opened Numeric

  datatype Metric = Accuracy | Relevance | Completeness | Clarity | Consistency | Efficiency | Creativity

  const AllMetrics: seq<Metric> := [Accuracy, Relevance, Completeness, Clarity, Consistency, Efficiency, Creativity]

  /** The weight of each metric in `evaluation_criteria`. */
  function Weight(m: Metric): (w: real)
    ensures 0.0 < w <= 0.25
  {
    match m
    case Accuracy => 0.25
    case Relevance => 0.20
    case Completeness => 0.15
    case Clarity => 0.15
    case Consistency => 0.10
    case Efficiency => 0.10
    case Creativity => 0.05
  }

  /** The score of each metric. */
  type Scores = Metric -> real

  function WeightedSum(ms: seq<Metric>, s: Scores): real {
    if |ms| == 0 then 0.0 else s(ms[0]) * Weight(ms[0]) + WeightedSum(ms[1..], s)
  }

  function WeightSum(ms: seq<Metric>): real {
    if |ms| == 0 then 0.0 else Weight(ms[0]) + WeightSum(ms[1..])
  }

  /** The weights add up to one. */
  lemma WeightsSumToOne()
    ensures WeightSum(AllMetrics) == 1.0
  {
    var a := AllMetrics;
    assert a[1..][1..][1..][1..][1..][1..][1..] == [];
  }

  /** Scores within `[0, 1]` keep the weighted sum within `[0, 1]` times
      the weight sum. */
  lemma {:induction false} WeightedSumUnit(ms: seq<Metric>, s: Scores)
    requires forall m :: m in ms ==> 0.0 <= s(m) <= 1.0
    ensures 0.0 <= WeightedSum(ms, s) <= WeightSum(ms)
  {
    if |ms| > 0 {
      assert forall m :: m in ms[1..] ==> m in ms;
      WeightedSumUnit(ms[1..], s);
      assert ms[0] in ms;
      ScaledWithin(s(ms[0]), Weight(ms[0]));
    }
  }

  lemma ScaledWithin(x: real, w: real)
    requires 0.0 <= x <= 1.0 && 0.0 <= w
    ensures 0.0 <= x * w <= w
  {
  }

  /** Full marks on every metric make the weighted sum the weight sum. */
  lemma {:induction false} WeightedSumOnes(ms: seq<Metric>, s: Scores)
    requires forall m :: m in ms ==> s(m) == 1.0
    ensures WeightedSum(ms, s) == WeightSum(ms)
  {
    if |ms| > 0 {
      assert forall m :: m in ms[1..] ==> m in ms;
      WeightedSumOnes(ms[1..], s);
      assert ms[0] in ms;
    }
  }

  datatype Rating = Excellent | Good | Adequate | Poor

  /** The quality rating of an overall score. */
  function QualityRating(score: real): Rating {
    if score >= 0.85 then Excellent
    else if score >= 0.70 then Good
    else if score >= 0.55 then Adequate
    else Poor
  }

  function Rank(r: Rating): nat {
    match r
    case Poor => 0
    case Adequate => 1
    case Good => 2
    case Excellent => 3
  }

  /** A higher score never gets a lower rating. */
  lemma RatingMonotone(a: real, b: real)
    requires a <= b
    ensures Rank(QualityRating(a)) <= Rank(QualityRating(b))
  {
  }

  lemma OverallBounds(s: Scores)
    ensures (forall m :: 0.0 <= s(m) <= 1.0) ==> 0.0 <= WeightedSum(AllMetrics, s) <= 1.0
    ensures (forall m :: s(m) == 1.0) ==> WeightedSum(AllMetrics, s) == 1.0
  {
    WeightsSumToOne();
    if forall m :: 0.0 <= s(m) <= 1.0 {
      WeightedSumUnit(AllMetrics, s);
    }
    if forall m :: s(m) == 1.0 {
      WeightedSumOnes(AllMetrics, s);
    }
  }

  datatype EvaluationResult = EvaluationResult(response: string, scores: Scores, overall: real, rating: Rating)

  /** `evaluate_response` given the seven metric scores. */
  function EvaluateResponse(response: string, s: Scores): (r: EvaluationResult)
    ensures r.overall == WeightedSum(AllMetrics, s)
    ensures (forall m :: 0.0 <= s(m) <= 1.0) ==> 0.0 <= r.overall <= 1.0
    ensures (forall m :: s(m) == 1.0) ==> r.overall == 1.0 && r.rating == Excellent
    ensures r.rating == QualityRating(r.overall)
  {
    OverallBounds(s);
    var overall := WeightedSum(AllMetrics, s);
    EvaluationResult(response, s, overall, QualityRating(overall))
  }

  // ---------------------------------------------------------------------
  // Concepts and accuracy
  // ---------------------------------------------------------------------

  /** `_contains_concept`: some word of the lowered concept, or the whole
      lowered concept, occurs in the lowered text. */
  predicate ContainsConcept(text: string, concept: string) {
    AnyPresent(Words(Lower(concept)), Lower(text)) || Contains(Lower(text), Lower(concept))
  }

  /** A word of a string occurs in it. */
  lemma {:induction false} WordsAreSubstrings(s: string, w: string)
    requires w in Words(s)
    ensures Contains(s, w)
    decreases |s|
  {
    if IsSpace(s[0]) {
      WordsAreSubstrings(s[1..], w);
      ContainsTail(s, w);
    } else {
      var n := TokenLength(s);
      if w == s[..n] {
        ContainsAt(s, w, 0);
      } else {
        WordsAreSubstrings(s[n..], w);
        ContainsSuffix(s, n, w);
      }
    }
  }

  lemma ContainsTail(s: string, w: string)
    requires |s| > 0 && Contains(s[1..], w)
    ensures Contains(s, w)
  {
  }

  lemma {:induction false} ContainsSuffix(s: string, n: nat, w: string)
    requires n <= |s| && Contains(s[n..], w)
    ensures Contains(s, w)
    decreases n
  {
    if n > 0 {
      assert s[1..][n - 1..] == s[n..];
      ContainsSuffix(s[1..], n - 1, w);
    }
  }

  /** The whole-concept test only matters for a concept without words: a
      concept with a word that occurs in the text as a whole occurs by its
      words too. */
  lemma WholeConceptImpliesWord(text: string, concept: string)
    requires Contains(Lower(text), Lower(concept)) && |Words(Lower(concept))| > 0
    ensures AnyPresent(Words(Lower(concept)), Lower(text))
  {
    var w := Words(Lower(concept))[0];
    WordsAreSubstrings(Lower(concept), w);
    ContainsTrans(Lower(text), Lower(concept), w);
  }

  /** An empty concept is found in every text. */
  lemma EmptyConceptFound(text: string)
    ensures ContainsConcept(text, "")
  {
    assert StartsWith(Lower(text), Lower(""));
  }

  /** How many entries of a list, duplicates included, are found. */
  function CountConcepts(text: string, concepts: seq<string>): (n: nat)
    ensures n <= |concepts|
  {
    if |concepts| == 0 then 0
    else (if ContainsConcept(text, concepts[0]) then 1 else 0) + CountConcepts(text, concepts[1..])
  }

  lemma {:induction false} CountConceptsAll(text: string, concepts: seq<string>)
    requires forall c :: c in concepts ==> ContainsConcept(text, c)
    ensures CountConcepts(text, concepts) == |concepts|
  {
    if |concepts| > 0 {
      assert concepts[0] in concepts;
      assert forall c :: c in concepts[1..] ==> c in concepts;
      CountConceptsAll(text, concepts[1..]);
    }
  }

  /** The share of required facts found, 0.8 when none is required. */
  function AccuracyBase(correct: nat, required: nat): (b: real)
    requires correct <= required
    ensures 0.0 <= b <= 1.0
    ensures required > 0 ==> b == correct as real / required as real
    ensures required > 0 ==> (b == 1.0 <==> correct == required)
  {
    if required > 0 then Ratio(correct, required) else 0.8
  }

  /** Scaling by `1 - 0.2 * k` for `k` forbidden facts found. */
  function Penalized(base: real, k: nat): (r: real)
    requires 0.0 <= base <= 1.0
    ensures k == 0 ==> r == base
    ensures r <= base
    ensures k >= 5 ==> r <= 0.0
    ensures k <= 5 ==> 0.0 <= r
    ensures k == 1 ==> r == 0.8 * base
    ensures k == 2 ==> r == 0.6 * base
    ensures k == 3 ==> r == 0.4 * base
    ensures k == 4 ==> r == 0.2 * base
  {
    if k > 0 then
      ScaledBelow(base, 1.0 - k as real * 0.2);
      base * (1.0 - k as real * 0.2)
    else base
  }

  lemma ScaledBelow(base: real, f: real)
    requires 0.0 <= base && f <= 1.0
    ensures base * f <= base
    ensures f <= 0.0 ==> base * f <= 0.0
    ensures f >= 0.0 ==> base * f >= 0.0
  {
  }

  /** The score `r` is `base` scaled by `1 - 0.2 * k`, for the one to four
      forbidden facts where that factor lies strictly between 0 and 1. */
  predicate ScaledByForbidden(r: real, base: real, k: nat) {
    && (k == 1 ==> r == 0.8 * base)
    && (k == 2 ==> r == 0.6 * base)
    && (k == 3 ==> r == 0.4 * base)
    && (k == 4 ==> r == 0.2 * base)
  }

  /** `_evaluate_accuracy`: the share of required facts found (0.8 when none
      is required), scaled by `1 - 0.2 * k` for `k` forbidden facts found,
      clamped to `[0, 1]`. */
  function AccuracyScore(response: string, required: seq<string>, forbidden: seq<string>): (r: real)
    ensures 0.0 <= r <= 1.0
    ensures CountConcepts(response, forbidden) == 0 ==>
      r == AccuracyBase(CountConcepts(response, required), |required|)
    ensures CountConcepts(response, forbidden) >= 5 ==> r == 0.0
    ensures r <= AccuracyBase(CountConcepts(response, required), |required|)
    ensures ScaledByForbidden(r, AccuracyBase(CountConcepts(response, required), |required|), CountConcepts(response, forbidden))
  {
    var base := AccuracyBase(CountConcepts(response, required), |required|);
    Clamp(Penalized(base, CountConcepts(response, forbidden)))
  }

  /** Finding more forbidden facts never raises the accuracy. */
  lemma AccuracyAntitone(response: string, required: seq<string>, fewer: seq<string>, more: seq<string>)
    requires CountConcepts(response, fewer) <= CountConcepts(response, more)
    ensures AccuracyScore(response, required, more) <= AccuracyScore(response, required, fewer)
  {
    var base := AccuracyBase(CountConcepts(response, required), |required|);
    PenalizedAntitone(base, CountConcepts(response, fewer), CountConcepts(response, more));
    ClampMonotone(Penalized(base, CountConcepts(response, more)), Penalized(base, CountConcepts(response, fewer)));
  }

  lemma PenalizedAntitone(base: real, j: nat, k: nat)
    requires 0.0 <= base <= 1.0 && j <= k
    ensures Penalized(base, k) <= Penalized(base, j)
  {
    if j > 0 {
      ScaledMonotone(base, 1.0 - k as real * 0.2, 1.0 - j as real * 0.2, Penalized(base, k), Penalized(base, j));
    }
  }

  lemma ScaledMonotone(base: real, f: real, g: real, x: real, y: real)
    requires 0.0 <= base && f <= g && x == base * f && y == base * g
    ensures x <= y
  {
  }

  /** Every required fact found and no forbidden one gives full accuracy. */
  lemma AccuracyFull(response: string, required: seq<string>, forbidden: seq<string>)
    requires |required| > 0 && forall c :: c in required ==> ContainsConcept(response, c)
    requires CountConcepts(response, forbidden) == 0
    ensures AccuracyScore(response, required, forbidden) == 1.0
  {
    CountConceptsAll(response, required);
  }

  // ---------------------------------------------------------------------
  // Consistency and efficiency
  // ---------------------------------------------------------------------

  /** The pairs of patterns whose joint presence counts as a contradiction. */
  const ContradictionPatterns: seq<(string, string)> := [
    ("\\b(always|never|all|none|every)\\b", "\\b(sometimes|some|few|rarely)\\b"),
    ("\\b(impossible|cannot)\\b", "\\b(possible|can|may)\\b"),
    ("\\b(definitely|certainly)\\b", "\\b(maybe|perhaps|might)\\b")
  ]

  function Contradictions(pairs: seq<(string, string)>, response: string, m: Matcher): (n: nat)
    ensures n <= |pairs|
  {
    if |pairs| == 0 then 0
    else (if m(pairs[0].0, response) && m(pairs[0].1, response) then 1 else 0) + Contradictions(pairs[1..], response, m)
  }

  /** `_evaluate_consistency`: 0.3 off per contradiction; with at most three
      contradictions the floor at 0 never binds. */
  function ConsistencyScore(response: string, m: Matcher): (r: real)
    ensures r == 1.0 - 0.3 * Contradictions(ContradictionPatterns, response, m) as real
    ensures r in {1.0, 0.7, 0.4, 0.1}
  {
    var c := Contradictions(ContradictionPatterns, response, m);
    var score := 1.0 - c as real * 0.3;
    if score < 0.0 then 0.0 else score
  }

  /** The length term of `_evaluate_efficiency`: full credit up to the
      target, else the target's share of the words, never below 0.3. */
  function LengthEfficiency(words: nat, target: nat): (r: real)
    ensures 0.3 <= r <= 1.0
    ensures r == 1.0 <==> words <= target
    ensures words > target ==> r == (if target as real / words as real >= 0.3 then target as real / words as real else 0.3)
  {
    if words <= target then 1.0
    else
      var share := Ratio(target, words);
      if share >= 0.3 then share else 0.3
  }

  /** More words never raise the length term. */
  lemma LengthEfficiencyMonotone(w1: nat, w2: nat, target: nat)
    requires w1 <= w2
    ensures LengthEfficiency(w2, target) <= LengthEfficiency(w1, target)
  {
    if w1 > target {
      QuotientAntitone(target as real, w1, w2);
    }
  }

  /** The target word count when the criteria name none. */
  const DefaultTarget: nat := 150

  /** `_evaluate_efficiency` given the criteria's `target_word_count`, if
      any, and the count of words of four or more letters the regular
      expression finds. */
  function EfficiencyScore(response: string, targetWordCount: Option<nat>, infoWords: nat): (r: real)
    ensures 0.0 <= r <= 1.0
    ensures var n, target := WordCount(response), targetWordCount.GetOr(DefaultTarget);
      r == Clamp(LengthEfficiency(n, target) * 0.7 + (if n > 0 then infoWords as real / n as real else 0.0) * 0.3)
    ensures targetWordCount.None? && WordCount(response) <= DefaultTarget && infoWords == 0 ==> r == 0.7
  {
    var target := targetWordCount.GetOr(DefaultTarget);
    var n := WordCount(response);
    var density := if n > 0 then Ratio(infoWords, n) else 0.0;
    var score := LengthEfficiency(n, target) * 0.7 + density * 0.3;
    if score <= 1.0 then score else 1.0
  }

  // ---------------------------------------------------------------------
  // Comparing prompts
  // ---------------------------------------------------------------------

  datatype Ranked = Ranked(name: string, score: real)

  predicate SortedDesc(s: seq<Ranked>) {
    forall i, j :: 0 <= i < j < |s| ==> s[i].score >= s[j].score
  }

  /** Places `x` after every element scoring at least as much, the way a
      stable sort with `reverse=True` keeps ties in their original order. */
  function InsertDesc(x: Ranked, s: seq<Ranked>): (r: seq<Ranked>)
    requires SortedDesc(s)
    ensures SortedDesc(r)
    ensures multiset(r) == multiset(s) + multiset{x}
    ensures |r| == |s| + 1
  {
    if |s| == 0 then [x]
    else if x.score > s[0].score then
      assert SortedDesc([x] + s) by { SortedCons(x, s); }
      [x] + s
    else
      var rest := InsertDesc(x, s[1..]);
      assert s == [s[0]] + s[1..];
      InsertHead(x, s, rest);
      [s[0]] + rest
  }

  lemma SortedCons(x: Ranked, s: seq<Ranked>)
    requires SortedDesc(s) && (|s| == 0 || x.score >= s[0].score)
    ensures SortedDesc([x] + s)
  {
  }

  lemma InsertHead(x: Ranked, s: seq<Ranked>, rest: seq<Ranked>)
    requires |s| > 0 && SortedDesc(s) && SortedDesc(rest) && x.score <= s[0].score
    requires multiset(rest) == multiset(s[1..]) + multiset{x}
    ensures SortedDesc([s[0]] + rest)
  {
    forall y | y in rest ensures y.score <= s[0].score {
      assert y in multiset(rest);
      if y != x {
        assert y in multiset(s[1..]);
        assert y in s[1..];
      }
    }
    if |rest| > 0 {
      assert rest[0] in rest;
    }
    SortedCons(s[0], rest);
  }

  function SortDesc(xs: seq<Ranked>): (r: seq<Ranked>)
    ensures SortedDesc(r)
    ensures multiset(r) == multiset(xs)
    ensures |r| == |xs|
  {
    if |xs| == 0 then []
    else
      assert xs == xs[..|xs| - 1] + [xs[|xs| - 1]];
      InsertDesc(xs[|xs| - 1], SortDesc(xs[..|xs| - 1]))
  }

  function MaxScore(s: seq<Ranked>): (m: real)
    requires |s| > 0
    ensures forall i :: 0 <= i < |s| ==> s[i].score <= m
    ensures exists i :: 0 <= i < |s| && s[i].score == m
  {
    if |s| == 1 then s[0].score
    else
      var m := MaxScore(s[1..]);
      assert forall i :: 1 <= i < |s| ==> s[i] == s[1..][i - 1];
      if s[0].score >= m then s[0].score else m
  }

  function MinScore(s: seq<Ranked>): (m: real)
    requires |s| > 0
    ensures forall i :: 0 <= i < |s| ==> m <= s[i].score
    ensures exists i :: 0 <= i < |s| && s[i].score == m
  {
    if |s| == 1 then s[0].score
    else
      var m := MinScore(s[1..]);
      assert forall i :: 1 <= i < |s| ==> s[i] == s[1..][i - 1];
      if s[0].score <= m then s[0].score else m
  }

  function SumScores(s: seq<Ranked>): real {
    if |s| == 0 then 0.0 else s[0].score + SumScores(s[1..])
  }

  lemma {:induction false} SumScoresAppend(a: seq<Ranked>, b: seq<Ranked>)
    ensures SumScores(a + b) == SumScores(a) + SumScores(b)
    decreases |a|
  {
    if |a| > 0 {
      assert (a + b)[1..] == a[1..] + b;
      SumScoresAppend(a[1..], b);
    } else {
      assert a + b == b;
    }
  }

  /** Reordering the entries leaves the total unchanged. */
  lemma {:induction false} SumScoresPermutation(a: seq<Ranked>, b: seq<Ranked>)
    requires multiset(a) == multiset(b)
    ensures SumScores(a) == SumScores(b)
    decreases |a|
  {
    if |a| == 0 {
      assert |multiset(b)| == 0;
    } else {
      var x := a[0];
      assert x in multiset(b);
      var j :| 0 <= j < |b| && b[j] == x;
      RemoveAt(b, j);
      assert a == [x] + a[1..];
      assert multiset(a[1..]) == multiset(a) - multiset{x};
      SumScoresPermutation(a[1..], b[..j] + b[j + 1..]);
    }
  }

  /** Taking out the entry at `j` removes one copy of it and its score. */
  lemma RemoveAt(b: seq<Ranked>, j: nat)
    requires j < |b|
    ensures var rest := b[..j] + b[j + 1..];
      multiset(rest) == multiset(b) - multiset{b[j]} && SumScores(b) == b[j].score + SumScores(rest)
  {
    var rest := b[..j] + b[j + 1..];
    assert b == b[..j] + ([b[j]] + b[j + 1..]);
    assert multiset(b) == multiset(b[..j]) + multiset{b[j]} + multiset(b[j + 1..]);
    SumScoresAppend(b[..j], [b[j]] + b[j + 1..]);
    SumScoresAppend(b[..j], b[j + 1..]);
    assert ([b[j]] + b[j + 1..])[1..] == b[j + 1..];
  }

  function SquaredDeviations(s: seq<Ranked>, mean: real): (d: real)
    ensures d >= 0.0
  {
    if |s| == 0 then 0.0
    else
      var d := s[0].score - mean;
      SquareNonNegative(d);
      d * d + SquaredDeviations(s[1..], mean)
  }

  lemma SquareNonNegative(d: real)
    ensures d * d >= 0.0
  {
  }

  datatype Analysis = Analysis(best: real, worst: real, average: real, range: real, variance: real)

  datatype Comparison = Comparison(ranked: seq<Ranked>, analysis: Analysis)

  /** The prompt name, response and prompt text of one entry. */
  datatype PromptResponse = PromptResponse(name: string, response: string, promptText: string)

  /** The overall score `evaluate_response` gives a response to a prompt. */
  type Scorer = (string, string) -> real

  /** `compare_prompts`: the entries ranked by score, highest first, and
      the spread of the scores. No entries raise, as `max` of an empty list
      does. */
  function ComparePrompts(entries: seq<PromptResponse>, score: Scorer): (r: Option<Comparison>)
    ensures |entries| == 0 <==> r.None?
    ensures r.Some? ==> r.value == Compare(Evaluations(entries, score))
  {
    if |entries| == 0 then None else Some(Compare(Evaluations(entries, score)))
  }

  function Mean(s: seq<Ranked>): real
    requires |s| > 0
  {
    SumScores(s) / |s| as real
  }

  /** `statistics.variance`, the sample variance, for two scores or more;
      a single score has none. */
  function Variance(s: seq<Ranked>): (v: real)
    requires |s| > 0
    ensures v >= 0.0
    ensures |s| == 1 ==> v == 0.0
  {
    if |s| > 1 then SquaredDeviations(s, Mean(s)) / (|s| - 1) as real else 0.0
  }

  /** The ranking and the spread of a non-empty list of scores. */
  function Compare(evaluations: seq<Ranked>): (r: Comparison)
    requires |evaluations| > 0
    ensures |r.ranked| == |evaluations| && SortedDesc(r.ranked)
    ensures multiset(r.ranked) == multiset(evaluations)
    ensures r.analysis.best == r.ranked[0].score && r.analysis.worst == r.ranked[|r.ranked| - 1].score
    ensures forall i :: 0 <= i < |evaluations| ==> r.analysis.worst <= evaluations[i].score <= r.analysis.best
    ensures r.analysis.range == r.analysis.best - r.analysis.worst
    ensures r.analysis.average == Mean(evaluations)
    ensures r.analysis.range >= 0.0 && r.analysis.variance >= 0.0
    ensures |evaluations| == 1 ==> r.analysis.variance == 0.0 && r.analysis.range == 0.0
  {
    var ranked := SortDesc(evaluations);
    var n := |ranked|;
    FirstOfSortedIsMax(ranked);
    SumScoresPermutation(ranked, evaluations);
    assert forall i :: 0 <= i < |evaluations| ==> evaluations[i] in multiset(ranked);
    var best, worst := MaxScore(ranked), MinScore(ranked);
    Comparison(ranked, Analysis(best, worst, Mean(ranked), best - worst, Variance(ranked)))
  }

  /** The score of each entry, in input order. */
  function Evaluations(entries: seq<PromptResponse>, score: Scorer): (r: seq<Ranked>)
    ensures |r| == |entries|
    ensures forall i :: 0 <= i < |entries| ==> r[i] == Ranked(entries[i].name, score(entries[i].response, entries[i].promptText))
  {
    seq(|entries|, i requires 0 <= i < |entries| => Ranked(entries[i].name, score(entries[i].response, entries[i].promptText)))
  }

  /** In a list sorted highest first, the first score is the maximum and
      the last the minimum. */
  lemma FirstOfSortedIsMax(s: seq<Ranked>)
    requires |s| > 0 && SortedDesc(s)
    ensures MaxScore(s) == s[0].score && MinScore(s) == s[|s| - 1].score
  {
    MaxOfSorted(s);
    MinOfSorted(s);
  }

  lemma MaxOfSorted(s: seq<Ranked>)
    requires |s| > 0 && SortedDesc(s)
    ensures MaxScore(s) == s[0].score
  {
    var hi := MaxScore(s);
    var i :| 0 <= i < |s| && s[i].score == hi;
    assert i == 0 || s[0].score >= s[i].score;
  }

  lemma MinOfSorted(s: seq<Ranked>)
    requires |s| > 0 && SortedDesc(s)
    ensures MinScore(s) == s[|s| - 1].score
  {
    var lo := MinScore(s);
    var j :| 0 <= j < |s| && s[j].score == lo;
    assert j == |s| - 1 || s[j].score >= s[|s| - 1].score;
  }

  /** The best score of a comparison is the maximum of all the prompts'
      scores, whatever order they came in. */
  lemma BestIsMaxOfInput(entries: seq<PromptResponse>, score: Scorer, i: nat)
    requires i < |entries|
    ensures ComparePrompts(entries, score).value.analysis.best >= score(entries[i].response, entries[i].promptText)
  {
    var ev := Evaluations(entries, score);
    var ranked := Compare(ev).ranked;
    assert ev[i] in multiset(ev);
    assert ev[i] in multiset(ranked);
    var j :| 0 <= j < |ranked| && ranked[j] == ev[i];
  }
}
