/** Prompt formatting and structure: the indicator, structure, readability
    and completeness scores given to a response, and the count of its
    structural elements.

    Several markers in the original are UTF-8 bytes that were decoded as
    Windows-1252 before being saved (a bullet `•` became `â€¢`). The scores
    are stated over a marker table, instantiated once with the characters
    as written and once with the characters evidently meant; the rest of
    the model uses the second. */
module Formatting {
  import opened Text
  import opened Numeric

  datatype PromptFormat = QaFormat | DialogueFormat | InstructionFormat | CompletionFormat | StructuredFormat {
    function Value(): string {
      match this
      case QaFormat => "qa"
      case DialogueFormat => "dialogue"
      case InstructionFormat => "instruction"
      case CompletionFormat => "completion"
      case StructuredFormat => "structured"
    }
  }

  datatype IndicatorKind = ClarityIndicators | EngagementIndicators | StructureIndicators

  /** `format_patterns`. */
  function Indicators(kind: IndicatorKind): seq<string> {
    match kind
    case ClarityIndicators => ["clear", "understand", "specific", "detailed"]
    case EngagementIndicators => ["interesting", "engaging", "compelling", "captivating"]
    case StructureIndicators => ["organized", "systematic", "structured", "coherent"]
  }

  lemma IndicatorsDistinct(kind: IndicatorKind)
    ensures |Indicators(kind)| == 4
    ensures forall i, j :: 0 <= i < j < |Indicators(kind)| ==> Indicators(kind)[i] != Indicators(kind)[j]
  {
  }


  /** `_calculate_indicator_score`: the share of the four indicator words
      in the lowered response; the cap never binds. */
  function IndicatorScore(response: string, kind: IndicatorKind): (r: real)
    ensures r == CountPresent(Indicators(kind), Lower(response)) as real / 4.0
    ensures 0.0 <= r <= 1.0
    ensures r == 1.0 <==> forall k :: k in Indicators(kind) ==> Contains(Lower(response), k)
    ensures r == 0.0 <==> !AnyPresent(Indicators(kind), Lower(response))
  {
    var n := CountPresent(Indicators(kind), Lower(response));
    IndicatorsDistinct(kind);
    CountPresentBounds(Indicators(kind), Lower(response));
    AllPresentIff(Indicators(kind), Lower(response));
    Capped(n as real / 4.0)
  }

  // ---------------------------------------------------------------------
  // Structure score
  // ---------------------------------------------------------------------

  /** The bullet as it appears in the source: the UTF-8 bytes of `•` read
      as Windows-1252. */
  const MisreadBullet: string := "\U{00E2}\U{20AC}\U{00A2}"

  const Bullet: string := "\U{2022}"

  function ListMarkersWith(bullet: string): seq<string> {
    [bullet, "-", "*", "1.", "2.", "3."]
  }

  const HeadingMarkers: seq<string> := ["#", "**", "__"]

  const FlowWords: seq<string> := ["first", "second", "then", "next", "finally", "therefore"]

  function Credit(holds: bool, points: real): real {
    if holds then points else 0.0
  }

  /** `_calculate_structure_score` over a given list-marker table: 0.3 for
      a blank line, 0.3 for a list marker, 0.2 for a heading marker and 0.2
      for a flow word; the parts add up to at most 1, so the cap never
      binds. */
  function StructureScoreWith(listMarkers: seq<string>, response: string): (r: real)
    ensures r == Credit(Contains(response, "\n\n"), 0.3) + Credit(AnyPresent(listMarkers, response), 0.3)
               + Credit(AnyPresent(HeadingMarkers, response), 0.2) + Credit(AnyPresent(FlowWords, Lower(response)), 0.2)
    ensures 0.0 <= r <= 1.0
    ensures r == 1.0 <==> Contains(response, "\n\n") && AnyPresent(listMarkers, response)
                          && AnyPresent(HeadingMarkers, response) && AnyPresent(FlowWords, Lower(response))
    ensures r == 0.0 <==> !Contains(response, "\n\n") && !AnyPresent(listMarkers, response)
                          && !AnyPresent(HeadingMarkers, response) && !AnyPresent(FlowWords, Lower(response))
  {
    Capped(Credit(Contains(response, "\n\n"), 0.3) + Credit(AnyPresent(listMarkers, response), 0.3)
           + Credit(AnyPresent(HeadingMarkers, response), 0.2) + Credit(AnyPresent(FlowWords, Lower(response)), 0.2))
  }

  /** The structure score as the source computes it, with the misread bullet. */
  function StructureScoreAsWritten(response: string): (r: real)
    ensures r == StructureScoreWith(ListMarkersWith(MisreadBullet), response)
    ensures 0.0 <= r <= 1.0
  {
    StructureScoreWith(ListMarkersWith(MisreadBullet), response)
  }

  /** The structure score with the bullet character meant. */
  function StructureScore(response: string): (r: real)
    ensures r == StructureScoreWith(ListMarkersWith(Bullet), response)
    ensures 0.0 <= r <= 1.0
    ensures Contains(response, Bullet) ==> r >= 0.3
  {
    assert Contains(response, Bullet) ==> Bullet in ListMarkersWith(Bullet);
    StructureScoreWith(ListMarkersWith(Bullet), response)
  }

  /** A one-item list with a `•` bullet. */
  const BulletItem: string := "\U{2022} milk"

  lemma {:induction false} NoneAbsent(keywords: seq<string>, text: string)
    requires forall k :: k in keywords ==> |k| > 0 && forall i :: 0 <= i < |text| ==> text[i] != k[0]
    ensures !AnyPresent(keywords, text)
  {
    forall k | k in keywords ensures !Contains(text, k) {
      AbsentFirstChar(text, k);
    }
  }

  lemma BulletItemNoBlankLine()
    ensures !Contains(BulletItem, "\n\n")
  {
    AbsentFirstChar(BulletItem, "\n\n");
  }

  lemma BulletItemNoMisreadMarker()
    ensures !AnyPresent(ListMarkersWith(MisreadBullet), BulletItem)
  {
    NoneAbsent(ListMarkersWith(MisreadBullet), BulletItem);
  }

  lemma BulletItemNoHeading()
    ensures !AnyPresent(HeadingMarkers, BulletItem)
  {
    NoneAbsent(HeadingMarkers, BulletItem);
  }

  lemma BulletItemNoFlowWord()
    ensures !AnyPresent(FlowWords, Lower(BulletItem))
  {
    assert Lower(BulletItem) == BulletItem;
    NoneAbsent(FlowWords, BulletItem);
  }

  lemma BulletItemHasBullet()
    ensures AnyPresent(ListMarkersWith(Bullet), BulletItem)
  {
    assert StartsWith(BulletItem, Bullet);
    assert Bullet in ListMarkersWith(Bullet);
  }

  /** `analyze_response` as the source writes it, with the misread bullet in
      the structure score. */
  function AnalyzeResponseAsWritten(response: string, format: PromptFormat): (r: FormatAnalysis)
    ensures r.formatType == format && r.responseText == response
    ensures r.responseLength == |Words(response)|
    ensures r.clarityScore == IndicatorScore(response, ClarityIndicators)
    ensures r.engagementScore == IndicatorScore(response, EngagementIndicators)
    ensures r.structureScore == StructureScoreAsWritten(response)
  {
    WordCountIsWords(response);
    FormatAnalysis(format, WordCount(response), IndicatorScore(response, ClarityIndicators),
                   IndicatorScore(response, EngagementIndicators), StructureScoreAsWritten(response), response)
  }

  /** The two analyses of a `•` list differ only in the structure score. */
  lemma BulletAnalysisDiffers(format: PromptFormat)
    ensures AnalyzeResponseAsWritten(BulletItem, format).structureScore == 0.0
    ensures AnalyzeResponse(BulletItem, format).structureScore == 0.3
    ensures AnalyzeResponseAsWritten(BulletItem, format).(structureScore := 0.3) == AnalyzeResponse(BulletItem, format)
  {
    BulletMissedAsWritten();
  }

  /** A response listing with `•` bullets gets no list credit as written. */
  lemma BulletMissedAsWritten()
    ensures StructureScoreAsWritten(BulletItem) == 0.0
    ensures StructureScore(BulletItem) == 0.3
  {
    BulletItemNoBlankLine();
    BulletItemNoMisreadMarker();
    BulletItemNoHeading();
    BulletItemNoFlowWord();
    BulletItemHasBullet();
  }

  datatype FormatAnalysis = FormatAnalysis(
    formatType: PromptFormat,
    responseLength: nat,
    clarityScore: real,
    engagementScore: real,
    structureScore: real,
    responseText: string)

  /** `analyze_response`: the format echoed, the whitespace word count and
      the three scores. */
  function AnalyzeResponse(response: string, format: PromptFormat): (r: FormatAnalysis)
    ensures r.formatType == format && r.responseText == response
    ensures r.responseLength == |Words(response)|
    ensures r.clarityScore == IndicatorScore(response, ClarityIndicators)
    ensures r.engagementScore == IndicatorScore(response, EngagementIndicators)
    ensures r.structureScore == StructureScore(response)
    ensures 0.0 <= r.clarityScore <= 1.0 && 0.0 <= r.engagementScore <= 1.0 && 0.0 <= r.structureScore <= 1.0
  {
    WordCountIsWords(response);
    FormatAnalysis(format, WordCount(response), IndicatorScore(response, ClarityIndicators),
                   IndicatorScore(response, EngagementIndicators), StructureScore(response), response)
  }

  lemma WordCountIsWords(s: string)
    ensures WordCount(s) == |Words(s)|
  {
  }

  // ---------------------------------------------------------------------
  // Structural elements
  // ---------------------------------------------------------------------

  /** The bullet and the four visual markers the element count looks for. */
  datatype Glyphs = Glyphs(bullet: string, visuals: seq<string>)

  /** The markers as the source spells them: `✓`, `⚠️`, `🚀` and `📋` misread
      the same way as the bullet (the byte 0x8F of `⚠️`, which has no
      Windows-1252 character, is lost). */
  const MisreadGlyphs: Glyphs := Glyphs(MisreadBullet, [
    "\U{00E2}\U{0153}\U{201C}",
    "\U{00E2}\U{0161}\U{00A0}\U{00EF}\U{00B8}",
    "\U{00F0}\U{0178}\U{0161}\U{20AC}",
    "\U{00F0}\U{0178}\U{201C}\U{2039}"])

  const IntendedGlyphs: Glyphs := Glyphs(Bullet, ["\U{2713}", "\U{26A0}\U{FE0F}", "\U{1F680}", "\U{1F4CB}"])

  predicate IsHeading(line: string) {
    StartsWith(line, "#") || StartsWith(line, "##")
  }

  predicate IsNumbered(line: string) {
    var t := Strip(line);
    |t| > 0 && '1' <= t[0] <= '9'
  }

  function CountHeadings(lines: seq<string>): (n: nat)
    ensures n <= |lines|
  {
    if |lines| == 0 then 0 else (if IsHeading(lines[0]) then 1 else 0) + CountHeadings(lines[1..])
  }

  function CountNumbered(lines: seq<string>): (n: nat)
    ensures n <= |lines|
  {
    if |lines| == 0 then 0 else (if IsNumbered(lines[0]) then 1 else 0) + CountNumbered(lines[1..])
  }

  /** The summed `text.count(g)` of the glyphs. */
  function CountAll(text: string, glyphs: seq<string>): nat {
    if |glyphs| == 0 then 0 else Count(text, glyphs[0]) + CountAll(text, glyphs[1..])
  }

  datatype Elements = Elements(
    headings: nat,
    bulletPoints: nat,
    numberedLists: nat,
    sections: nat,
    visualElements: nat,
    totalLines: nat,
    structureDensity: real)

  function StructuralCount(e: Elements): nat {
    e.headings + e.bulletPoints + e.numberedLists + e.sections + e.visualElements
  }

  /** Five times the structural elements per line, capped at 1. */
  function Density(c: nat, n: nat): (d: real)
    requires n > 0
    ensures d == Capped(c as real / n as real * 5.0)
    ensures 0.0 <= d <= 1.0
    ensures d == 0.0 <==> c == 0
    ensures d == 1.0 <==> c * 5 >= n
  {
    DensityFacts(c, n);
    Capped(c as real / n as real * 5.0)
  }

  lemma DensityFacts(c: nat, n: nat)
    requires n > 0
    ensures c as real / n as real * 5.0 >= 0.0
    ensures c as real / n as real * 5.0 == 0.0 <==> c == 0
    ensures c as real / n as real * 5.0 >= 1.0 <==> c * 5 >= n
  {
    var q := c as real / n as real;
    assert q * n as real == c as real;
    if c * 5 >= n {
      assert q * 5.0 * n as real == (c * 5) as real;
    } else {
      assert q * 5.0 * n as real == (c * 5) as real;
    }
  }

  /** `_analyze_structural_elements` over given glyphs: the counts, and a
      density of five times the structural elements per line, capped at 1. */
  function StructuralElementsWith(g: Glyphs, text: string): (e: Elements)
    ensures var lines := Split(text, '\n');
      && e.totalLines == |lines| == CountChar(text, '\n') + 1
      && e.headings == CountHeadings(lines) <= e.totalLines
      && e.numberedLists == CountNumbered(lines) <= e.totalLines
      && e.bulletPoints == Count(text, g.bullet) + Count(text, "*") + Count(text, "-")
      && e.sections == Count(text, "\n\n")
      && e.visualElements == CountAll(text, g.visuals)
    ensures e.totalLines > 0 && e.structureDensity == Density(StructuralCount(e), e.totalLines)
  {
    var lines := Split(text, '\n');
    SplitLength(text, '\n');
    var headings, numbered := CountHeadings(lines), CountNumbered(lines);
    var bullets := Count(text, g.bullet) + Count(text, "*") + Count(text, "-");
    var sections, visuals := Count(text, "\n\n"), CountAll(text, g.visuals);
    var total := headings + bullets + numbered + sections + visuals;
    Elements(headings, bullets, numbered, sections, visuals, |lines|, Density(total, |lines|))
  }

  /** The element count as the source computes it, with misread glyphs. */
  function StructuralElementsAsWritten(text: string): (e: Elements)
    ensures e.bulletPoints == Count(text, MisreadBullet) + Count(text, "*") + Count(text, "-")
  {
    StructuralElementsWith(MisreadGlyphs, text)
  }

  /** The element count with the glyphs meant. */
  function StructuralElements(text: string): (e: Elements)
    ensures Contains(text, Bullet) ==> e.bulletPoints > 0
    ensures AnyPresent(IntendedGlyphs.visuals, text) ==> e.visualElements > 0
  {
    CountPositive(text, Bullet);
    VisualsCounted(text, IntendedGlyphs.visuals);
    StructuralElementsWith(IntendedGlyphs, text)
  }

  lemma {:induction false} VisualsCounted(text: string, glyphs: seq<string>)
    requires forall v :: v in glyphs ==> |v| > 0
    ensures AnyPresent(glyphs, text) ==> CountAll(text, glyphs) > 0
  {
    if AnyPresent(glyphs, text) {
      var v :| v in glyphs && Contains(text, v);
      if v == glyphs[0] {
        CountPositive(text, v);
      } else {
        assert v in glyphs[1..];
        assert forall w :: w in glyphs[1..] ==> w in glyphs;
        VisualsCounted(text, glyphs[1..]);
      }
    }
  }

  /** A substring whose first character never occurs is counted zero times. */
  lemma CountAbsent(s: string, sub: string)
    requires |sub| > 0 && forall i :: 0 <= i < |s| ==> s[i] != sub[0]
    ensures Count(s, sub) == 0
  {
    AbsentFirstChar(s, sub);
    CountPositive(s, sub);
  }

  lemma {:induction false} CountAllAbsent(s: string, glyphs: seq<string>)
    requires forall g :: g in glyphs ==> |g| > 0 && forall i :: 0 <= i < |s| ==> s[i] != g[0]
    ensures CountAll(s, glyphs) == 0
  {
    if |glyphs| > 0 {
      assert glyphs[0] in glyphs;
      CountAbsent(s, glyphs[0]);
      assert forall g :: g in glyphs[1..] ==> g in glyphs;
      CountAllAbsent(s, glyphs[1..]);
    }
  }

  const BulletAndCheck: string := "\U{2022}\U{2713}"

  /** A bullet and a check mark, one of each, go uncounted as written. */
  lemma GlyphsMissedAsWritten()
    ensures StructuralElementsAsWritten(BulletAndCheck).bulletPoints == 0
    ensures StructuralElementsAsWritten(BulletAndCheck).visualElements == 0
  {
    MisreadCounts();
  }

  /** With the glyphs meant, each is counted once. */
  lemma GlyphsCounted()
    ensures StructuralElements(BulletAndCheck).bulletPoints == 1
    ensures StructuralElements(BulletAndCheck).visualElements == 1
  {
    IntendedCounts();
  }

  lemma MisreadCounts()
    ensures Count(BulletAndCheck, MisreadBullet) + Count(BulletAndCheck, "*") + Count(BulletAndCheck, "-") == 0
    ensures CountAll(BulletAndCheck, MisreadGlyphs.visuals) == 0
  {
    var s := BulletAndCheck;
    CountAbsent(s, MisreadBullet);
    CountAbsent(s, "*");
    CountAbsent(s, "-");
    CountAllAbsent(s, MisreadGlyphs.visuals);
  }

  lemma IntendedCounts()
    ensures Count(BulletAndCheck, Bullet) + Count(BulletAndCheck, "*") + Count(BulletAndCheck, "-") == 1
    ensures CountAll(BulletAndCheck, IntendedGlyphs.visuals) == 1
  {
    var s := BulletAndCheck;
    CountAbsent(s, "*");
    CountAbsent(s, "-");
    assert Count(s, Bullet) == 1 by {
      CountAbsent(s[1..], Bullet);
    }
    var vs := IntendedGlyphs.visuals;
    assert Count(s, vs[0]) == 1 by {
      assert s[..1] != vs[0];
      assert s[1..][..1] == vs[0];
      assert s[1..][1..] == [];
    }
    CountAllAbsent(s, vs[1..]);
  }

  // ---------------------------------------------------------------------
  // Readability and completeness
  // ---------------------------------------------------------------------


  const OptimalSentenceLength: real := 15.0

  const Transitions: seq<string> := ["however", "therefore", "additionally", "furthermore", "consequently"]

  function SumWordCounts(pieces: seq<string>): nat {
    if |pieces| == 0 then 0 else WordCount(pieces[0]) + SumWordCounts(pieces[1..])
  }

  /** `1 - min(1, |avg - 15| / 15)`: full marks at fifteen words a sentence. */
  function LengthScore(avg: real): (r: real)
    ensures 0.0 <= r <= 1.0
    ensures r == 1.0 <==> avg == OptimalSentenceLength
    ensures avg >= 0.0 ==> (r == 0.0 <==> avg == 0.0 || avg >= 30.0)
  {
    var d := Abs(avg - OptimalSentenceLength) / OptimalSentenceLength;
    1.0 - (if d <= 1.0 then d else 1.0)
  }

  /** `_calculate_readability_score`: the mean of the sentence-length score
      over the '.'-pieces and the share of the five transitions present.
      Splitting never gives an empty list, so the early return of 0 cannot
      happen, and the transition share is never capped. */
  function Readability(text: string): (r: real)
    ensures var pieces := Split(text, '.');
      |pieces| > 0
      && r == (LengthScore(SumWordCounts(pieces) as real / |pieces| as real)
               + CountPresent(Transitions, Lower(text)) as real / 5.0) / 2.0
    ensures 0.0 <= r <= 1.0
  {
    var pieces := Split(text, '.');
    var avg := Ratio(SumWordCounts(pieces), |pieces|);
    CountPresentBounds(Transitions, Lower(text));
    var transition := Capped(CountPresent(Transitions, Lower(text)) as real / 5.0);
    (LengthScore(avg) + transition) / 2.0
  }

  /** Full readability takes fifteen words a sentence on average and all
      five transitions. */
  lemma ReadabilityFull(text: string)
    ensures var pieces := Split(text, '.');
      Readability(text) == 1.0 <==>
        SumWordCounts(pieces) as real / |pieces| as real == OptimalSentenceLength
        && forall t :: t in Transitions ==> Contains(Lower(text), t)
  {
    CountPresentBounds(Transitions, Lower(text));
    AllPresentIff(Transitions, Lower(text));
  }

  const RequiredComponents: seq<string> :=
    ["timeline", "phase", "requirement", "resource", "risk", "team", "deliverable", "milestone", "scope", "objective"]

  /** `_assess_completeness`: the share of the ten plan components in the
      lowered text; the task is not consulted. */
  function AssessCompleteness(text: string, task: string): (r: real)
    ensures r == CountPresent(RequiredComponents, Lower(text)) as real / 10.0
    ensures 0.0 <= r <= 1.0
    ensures r == 1.0 <==> forall c :: c in RequiredComponents ==> Contains(Lower(text), c)
    ensures r == 0.0 <==> !AnyPresent(RequiredComponents, Lower(text))
  {
    CountPresentBounds(RequiredComponents, Lower(text));
    AllPresentIff(RequiredComponents, Lower(text));
    CountPresent(RequiredComponents, Lower(text)) as real / 10.0
  }
}
