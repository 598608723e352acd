/** Prompt optimization: testing a prompt variant, the score of its
    response, and the quality score of each stage of an optimization
    pipeline together with the improvement from the first stage to the
    last. */
module Optimization {
  import opened Text
  import opened Wrappers
  import opened Oracles
  import opened Numeric

  datatype VariantResult = VariantResult(response: string, executionTime: real, wordCount: nat, hasBullets: bool)

  /** `"•" in response or "-" in response`. */
  predicate HasBullets(response: string) {
    Contains(response, "\U{2022}") || Contains(response, "-")
  }

  /** `_test_variant`: the model answers the prompt followed by a blank
      line and the content; the elapsed time is given. */
  function TestVariant(prompt: string, content: string, llm: Llm, elapsed: real): (r: VariantResult)
    ensures r.response == llm(prompt + "\n\n" + content)
    ensures r.wordCount == |Words(r.response)| && r.executionTime == elapsed
    ensures r.hasBullets <==> HasBullets(r.response)
  {
    var response := llm(prompt + "\n\n" + content);
    VariantResult(response, elapsed, WordCount(response), HasBullets(response))
  }

  const DefaultTargetWords: nat := 40

  /** The word-count bonus: 1.5 within the target, 0.5 within half as much
      again, else nothing. */
  function LengthBonus(words: nat, target: nat): (b: real)
    ensures b in {0.0, 0.5, 1.5}
    ensures b == 1.5 <==> words <= target
  {
    if words <= target then 1.5 else if words as real <= target as real * 1.5 then 0.5 else 0.0
  }

  /** `_score_response`: 5 plus the length, format and speed bonuses; they
      add up to at most 3, so the cap at 8 never binds. */
  function ScoreResponse(result: VariantResult, target: nat := DefaultTargetWords): (r: real)
    ensures r == 5.0 + LengthBonus(result.wordCount, target)
                     + (if result.hasBullets then 1.0 else 0.0)
                     + (if result.executionTime < 3.0 then 0.5 else 0.0)
    ensures 5.0 <= r <= 8.0
    ensures r == 8.0 <==> result.wordCount <= target && result.hasBullets && result.executionTime < 3.0
  {
    var base := 5.0 + LengthBonus(result.wordCount, target);
    var withFormat := if result.hasBullets then base + 1.0 else base;
    var total := if result.executionTime < 3.0 then withFormat + 0.5 else withFormat;
    if total <= 8.0 then total else 8.0
  }

  /** A shorter response never scores lower. */
  lemma ScoreMonotoneInWords(result: VariantResult, fewer: nat, target: nat)
    requires fewer <= result.wordCount
    ensures ScoreResponse(result, target) <= ScoreResponse(result.(wordCount := fewer), target)
  {
  }

  // ---------------------------------------------------------------------
  // Optimization pipeline
  // ---------------------------------------------------------------------

  const StageMarkers: seq<string> := ["\U{1F3A7}", "\U{2022}", "-", ":"]
  const StageAudienceWords: seq<string> := ["for", "perfect", "ideal"]

  /** The stage quality checks: within 85 words, some list or label marker,
      and some audience word. */
  function StageChecks(response: string, wordCount: nat): (c: seq<bool>)
    ensures |c| == 3
  {
    [wordCount <= 85, AnyPresent(StageMarkers, response), AnyPresent(StageAudienceWords, Lower(response))]
  }

  /** The quality score of a stage: two points per check passed. */
  function StageQuality(response: string, wordCount: nat): (q: nat)
    ensures q == 2 * CountTrue(StageChecks(response, wordCount))
    ensures q in {0, 2, 4, 6}
  {
    var c := StageChecks(response, wordCount);
    CountTrueThree(c);
    (if c[0] then 2 else 0) + (if c[1] then 2 else 0) + (if c[2] then 2 else 0)
  }

  /** The label a stage's quality is recorded with: `f"{q}/6"`. */
  function QualityLabel(q: nat): string {
    NatToString(q) + "/6"
  }

  predicate AllDigits(s: string) {
    forall i :: 0 <= i < |s| ==> IsDigit(s[i])
  }

  /** `int(label.split("/")[0])`, which fails on anything but digits. */
  function ParseQuality(tag: string): (r: Option<nat>)
    ensures r.Some? <==> |Split(tag, '/')[0]| > 0 && AllDigits(Split(tag, '/')[0])
  {
    var head := Split(tag, '/')[0];
    if |head| > 0 && AllDigits(head) then Some(DigitsValue(head)) else None
  }

  /** Reading a label back gives the quality recorded. */
  lemma ParseQualityRoundTrip(q: nat)
    ensures ParseQuality(QualityLabel(q)) == Some(q)
  {
    var d := NatToString(q);
    assert forall i :: 0 <= i < |d| ==> d[i] != '/';
    assert QualityLabel(q) == d + ['/'] + "6";
    SplitFirst(d, '/', "6");
    NatToStringRoundTrip(q);
  }

  /** `(final - initial) / 6 * 100`, read from the first and the last
      stage's labels. */
  function Improvement(stageLabels: seq<string>): (r: Option<real>)
    requires |stageLabels| > 0
  {
    var first := ParseQuality(stageLabels[0]);
    var last := ParseQuality(stageLabels[|stageLabels| - 1]);
    if first.Some? && last.Some? then Some((last.value as real - first.value as real) / 6.0 * 100.0) else None
  }

  /** For labels recorded from stage qualities the improvement is the
      change of quality in percent of the scale, between -100 and 100. */
  lemma ImprovementOfStages(qualities: seq<nat>)
    requires |qualities| > 0 && forall i :: 0 <= i < |qualities| ==> qualities[i] <= 6
    ensures var labels := seq(|qualities|, i requires 0 <= i < |qualities| => QualityLabel(qualities[i]));
      var first, last := qualities[0], qualities[|qualities| - 1];
      && Improvement(labels) == Some((last as real - first as real) / 6.0 * 100.0)
      && -100.0 <= Improvement(labels).value <= 100.0
      && (Improvement(labels).value == 0.0 <==> first == last)
  {
    ParseQualityRoundTrip(qualities[0]);
    ParseQualityRoundTrip(qualities[|qualities| - 1]);
  }
}
