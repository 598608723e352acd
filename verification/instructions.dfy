/** Instruction engineering: a clarity score for an instruction, with one
    line of feedback per satisfied criterion, and a five-check validation
    of a response against a multi-constraint instruction. */
module Instructions {
  import opened Text
  import opened Numeric

  const Tick: string := "\U{2713}"
  const Cross: string := "\U{2717}"

  const LengthWords: seq<string> := ["word", "paragraph", "sentence"]
  const StructureWords: seq<string> := ["structure", "format", "sections"]
  const AudienceWords: seq<string> := ["audience", "for", "tone"]

  /** The four criteria of `score_clarity`, in the order checked. */
  function Criteria(instruction: string): (c: seq<bool>)
    ensures |c| == 4
  {
    var lowered := Lower(instruction);
    [AnyPresent(LengthWords, lowered), AnyPresent(StructureWords, lowered),
     AnyPresent(AudienceWords, lowered), WordCount(instruction) > 20]
  }

  /** The feedback line of each criterion. */
  const FeedbackLines: seq<string> := [
    "\U{2713} Length specified", "\U{2713} Structure provided",
    "\U{2713} Audience/tone specified", "\U{2713} Detailed instruction"]

  datatype ClarityReport = ClarityReport(score: nat, feedback: seq<string>)

  function Lines(c: seq<bool>, k: nat): (r: seq<string>)
    requires |c| == 4 && k <= 4
    ensures |r| <= 4 - k
    ensures forall i :: k <= i < 4 ==> (FeedbackLines[i] in r <==> c[i])
    ensures forall x :: x in r ==> x in FeedbackLines[k..]
    decreases 4 - k
  {
    if k == 4 then []
    else (if c[k] then [FeedbackLines[k]] else []) + Lines(c, k + 1)
  }

  lemma {:induction false} LinesCount(c: seq<bool>, k: nat)
    requires |c| == 4 && k <= 4
    ensures |Lines(c, k)| == CountTrue(c[k..])
    decreases 4 - k
  {
    if k < 4 {
      LinesCount(c, k + 1);
      assert c[k..][1..] == c[k + 1..];
    }
  }

  /** Two points and one feedback line per satisfied criterion; the cap at
      8 never binds. */
  function ClarityOf(c: seq<bool>): (r: ClarityReport)
    requires |c| == 4
    ensures r.score == 2 * |r.feedback| && r.score in {0, 2, 4, 6, 8}
    ensures |r.feedback| == CountTrue(c)
    ensures forall i :: 0 <= i < 4 ==> (FeedbackLines[i] in r.feedback <==> c[i])
    ensures forall x :: x in r.feedback ==> x in FeedbackLines
  {
    var feedback := Lines(c, 0);
    LinesCount(c, 0);
    assert c[0..] == c;
    assert FeedbackLines[0..] == FeedbackLines;
    var score := 2 * |feedback|;
    ClarityReport(if score <= 8 then score else 8, feedback)
  }

  /** `score_clarity`. */
  function ScoreClarity(instruction: string): (r: ClarityReport)
    ensures r.score == 2 * |r.feedback| && r.score in {0, 2, 4, 6, 8}
    ensures |r.feedback| == CountTrue(Criteria(instruction))
    ensures forall i :: 0 <= i < 4 ==> (FeedbackLines[i] in r.feedback <==> Criteria(instruction)[i])
  {
    ClarityOf(Criteria(instruction))
  }

  /** Full marks take all four criteria. */
  lemma ClarityFull(instruction: string)
    ensures ScoreClarity(instruction).score == 8 <==> forall i :: 0 <= i < 4 ==> Criteria(instruction)[i]
  {
    AllTrue(Criteria(instruction));
  }

  /** `for` is a piece of `format`: an instruction that asks for a format
      is also credited with naming its audience. */
  lemma FormatCountsAsAudience(instruction: string)
    requires Contains(Lower(instruction), "format")
    ensures Criteria(instruction)[1] && Criteria(instruction)[2]
  {
    assert StartsWith("format", "for");
    assert Contains("format", "for");
    ContainsTrans(Lower(instruction), "format", "for");
    assert "format" in StructureWords && "for" in AudienceWords;
  }

  // ---------------------------------------------------------------------
  // Response validation
  // ---------------------------------------------------------------------

  /** `json.loads` accepts the text. */
  type JsonCheck = string -> bool

  const ConfidencePatterns: seq<string> := ["confidence", "score", "0.", "1.0"]

  /** The five conditions `validate_response` checks, in order: valid JSON,
      at most 150 words, at most six mentions of insights or problems, at
      least three priority labels, and some mention of confidence. */
  function Checks(response: string, isJson: JsonCheck): (c: seq<bool>)
    ensures |c| == 5
  {
    var lowered := Lower(response);
    [isJson(Strip(response)),
     WordCount(response) <= 150,
     Count(lowered, "insight") + Count(lowered, "problem") <= 6,
     Count(lowered, "high") + Count(lowered, "medium") + Count(lowered, "low") >= 3,
     AnyPresent(ConfidencePatterns, lowered)]
  }

  /** A tick and the first text when the check passes, else a cross and the
      second. */
  function Verdict(ok: bool, passed: string, failed: string): (m: string)
    ensures StartsWith(m, Tick) <==> ok
  {
    if ok then Tick + passed else Cross + failed
  }

  const CheckNames: seq<string> := ["json_format", "word_count", "insight_count", "priority_labels", "confidence_scores"]

  /** The message of each check, given the check results and the printed
      word count. */
  function Details(c: seq<bool>, words: string): (d: seq<(string, string)>)
    requires |c| == 5
    ensures |d| == 5
    ensures forall i :: 0 <= i < 5 ==> d[i].0 == CheckNames[i]
    ensures forall i :: 0 <= i < 5 ==> (StartsWith(d[i].1, Tick) <==> c[i])
  {
    var v0 := Verdict(c[0], " Valid JSON", " Invalid JSON");
    var v1 := Verdict(c[1], " " + words + "/150 words", " " + words + "/150 words (exceeded)");
    var v2 := Verdict(c[2], " Within limits", " Too many insights");
    var v3 := Verdict(c[3], " Priorities included", " Missing priorities");
    var v4 := Verdict(c[4], " Confidence included", " No confidence scores");
    [(CheckNames[0], v0), (CheckNames[1], v1), (CheckNames[2], v2), (CheckNames[3], v3), (CheckNames[4], v4)]
  }

  /** The number of messages starting with a tick. */
  function CountTicks(d: seq<(string, string)>): nat {
    if |d| == 0 then 0 else (if StartsWith(d[0].1, Tick) then 1 else 0) + CountTicks(d[1..])
  }

  lemma {:induction false} TicksAreChecks(d: seq<(string, string)>, c: seq<bool>)
    requires |d| == |c| && forall i :: 0 <= i < |d| ==> (StartsWith(d[i].1, Tick) <==> c[i])
    ensures CountTicks(d) == CountTrue(c)
  {
    if |d| > 0 {
      TicksAreChecks(d[1..], c[1..]);
    }
  }

  datatype ValidationReport = ValidationReport(
    validationScore: string,
    details: seq<(string, string)>,
    complianceRate: string,
    passed: nat,
    total: nat)

  /** The passed checks and their share of five. */
  predicate Counted(r: ValidationReport, c: seq<bool>)
    requires |c| == 5
  {
    && r.total == |r.details| == 5
    && r.passed == CountTrue(c) <= r.total
    && (forall i :: 0 <= i < 5 ==> r.details[i].0 == CheckNames[i])
    && (forall i :: 0 <= i < 5 ==> (StartsWith(r.details[i].1, Tick) <==> c[i]))
    && r.validationScore == NatToString(r.passed) + "/5"
    && r.complianceRate == NatToString(r.passed * 20) + "%"
  }

  /** The report for given check results. */
  function Report(c: seq<bool>, words: string): (r: ValidationReport)
    requires |c| == 5
    ensures Counted(r, c)
  {
    var d := Details(c, words);
    var passed := CountTicks(d);
    TicksAreChecks(d, c);
    AllTrue(c);
    ValidationReport(NatToString(passed) + "/5", d, NatToString(passed * 20) + "%", passed, 5)
  }

  /** `validate_response`: five checks always run; the passed ones are those
      whose message starts with a tick, which are exactly the conditions
      that hold. The rate `passed / 5 * 100` is a whole number, so printing
      it without decimals is exact. */
  function ValidateResponse(response: string, instruction: string, isJson: JsonCheck): (r: ValidationReport)
    ensures Counted(r, Checks(response, isJson))
  {
    Report(Checks(response, isJson), NatToString(WordCount(response)))
  }

  /** All five checks pass exactly when every condition holds. */
  lemma ValidationFull(response: string, instruction: string, isJson: JsonCheck)
    ensures ValidateResponse(response, instruction, isJson).passed == 5 <==>
      forall i :: 0 <= i < 5 ==> Checks(response, isJson)[i]
  {
    AllTrue(Checks(response, isJson));
  }
}
