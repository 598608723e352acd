/** Prompt security: the threat analyser (a table of attack patterns scanned
    in order, a list of safety keywords), the mitigation advice and the
    decision to block a request before the model is called.

    A pattern test is a case-insensitive regular-expression search; it is a
    parameter (`Matcher`) applied to the pattern text and the input. The
    model call is a parameter too (`Responder`). */
module Security {
  import opened Oracles
  import opened Text
  import opened Numeric
  import opened Selection

  datatype ThreatLevel = Low | Medium | High | Critical {
    function Value(): string {
      match this
      case Low => "low"
      case Medium => "medium"
      case High => "high"
      case Critical => "critical"
    }
  }

  datatype AttackType = Injection | Jailbreak | PromptLeak | RoleManipulation | DataExtraction | BypassAttempt {
    function Value(): string {
      match this
      case Injection => "injection"
      case Jailbreak => "jailbreak"
      case PromptLeak => "prompt_leak"
      case RoleManipulation => "role_manipulation"
      case DataExtraction => "data_extraction"
      case BypassAttempt => "bypass_attempt"
    }
  }

  datatype PatternGroup = PatternGroup(attack: AttackType, patterns: seq<string>)

  /** `threat_patterns`, in the dict's order. */
  const ThreatPatterns: seq<PatternGroup> := [
    PatternGroup(Injection, [
      "ignore\\s+(all\\s+)?previous\\s+instructions?",
      "forget\\s+(all\\s+)?previous\\s+(instructions?|context)",
      "disregard\\s+the\\s+(above|previous)",
      "instead\\s+of\\s+the\\s+above",
      "new\\s+instructions?:",
      "override\\s+the\\s+system",
      "act\\s+as\\s+if\\s+you\\s+are"]),
    PatternGroup(Jailbreak, [
      "pretend\\s+you\\s+are\\s+a\\s+different",
      "roleplay\\s+as\\s+a",
      "you\\s+are\\s+now\\s+in\\s+developer\\s+mode",
      "DAN\\s+(mode|prompt)",
      "evil\\s+assistant",
      "without\\s+any\\s+restrictions",
      "break\\s+your\\s+guidelines"]),
    PatternGroup(PromptLeak, [
      "show\\s+me\\s+your\\s+prompt",
      "what\\s+are\\s+your\\s+instructions",
      "reveal\\s+your\\s+system\\s+message",
      "print\\s+your\\s+initial\\s+prompt",
      "display\\s+the\\s+prompt",
      "what\\s+was\\s+your\\s+original\\s+prompt"]),
    PatternGroup(RoleManipulation, [
      "you\\s+are\\s+not\\s+an?\\s+AI",
      "pretend\\s+to\\s+be\\s+human",
      "act\\s+like\\s+you\\s+are\\s+not\\s+a\\s+chatbot",
      "behave\\s+as\\s+if\\s+you\\s+were\\s+a\\s+real\\s+person",
      "simulate\\s+being\\s+a\\s+human"]),
    PatternGroup(DataExtraction, [
      "tell\\s+me\\s+about\\s+other\\s+users",
      "show\\s+me\\s+private\\s+information",
      "access\\s+my\\s+account\\s+data",
      "retrieve\\s+confidential",
      "leak\\s+sensitive\\s+information"])
  ]

  const SafetyKeywords: seq<string> := [
    "harmful", "dangerous", "illegal", "unethical", "malicious",
    "hack", "exploit", "bypass", "circumvent", "manipulate"]

  /** The level after one matching pattern of type `t`. */
  function Escalate(level: ThreatLevel, t: AttackType): ThreatLevel {
    if t == Injection || t == Jailbreak then High
    else if t == DataExtraction then Critical
    else if level == Low then Medium
    else level
  }

  /** The inner loop over one group's patterns: the level escalates at
      every match. */
  function ScanGroup(level: ThreatLevel, t: AttackType, patterns: seq<string>, text: string, m: Matcher): ThreatLevel
    decreases |patterns|
  {
    if |patterns| == 0 then level
    else ScanGroup(if m(patterns[0], text) then Escalate(level, t) else level, t, patterns[1..], text, m)
  }

  /** The patterns of `patterns` that match, in order. */
  function Matched(patterns: seq<string>, text: string, m: Matcher): (r: seq<string>)
    ensures |r| <= |patterns|
    ensures forall p :: p in r <==> p in patterns && m(p, text)
  {
    if |patterns| == 0 then []
    else (if m(patterns[0], text) then [patterns[0]] else []) + Matched(patterns[1..], text, m)
  }

  /** The matching patterns are listed once per table entry that matches,
      in table order. */
  lemma {:induction false} MatchedInOrder(patterns: seq<string>, text: string, m: Matcher)
    ensures SelectsInOrder(Matched(patterns, text, m), patterns, MatchesIn(m, text), Identity())
  {
    if |patterns| > 0 {
      MatchedInOrder(patterns[1..], text, m);
      SelectsCons(Matched(patterns[1..], text, m), patterns, MatchesIn(m, text), Identity());
    }
  }

  /** Escalating twice with the same type is escalating once, so a group
      with any number of matches escalates exactly once. */
  lemma {:induction false} ScanGroupOnce(level: ThreatLevel, t: AttackType, patterns: seq<string>, text: string, m: Matcher)
    ensures ScanGroup(level, t, patterns, text, m) ==
      if |Matched(patterns, text, m)| > 0 then Escalate(level, t) else level
    decreases |patterns|
  {
    if |patterns| > 0 {
      var p, rest := patterns[0], patterns[1..];
      assert Matched(patterns, text, m) == (if m(p, text) then [p] else []) + Matched(rest, text, m);
      if m(p, text) {
        ScanGroupOnce(Escalate(level, t), t, rest, text, m);
        EscalateTwice(level, t);
      } else {
        ScanGroupOnce(level, t, rest, text, m);
      }
    }
  }

  lemma EscalateTwice(level: ThreatLevel, t: AttackType)
    ensures Escalate(Escalate(level, t), t) == Escalate(level, t)
  {
  }

  /** The outer loop over the table. */
  function ScanLevel(groups: seq<PatternGroup>, level: ThreatLevel, text: string, m: Matcher): ThreatLevel {
    if |groups| == 0 then level
    else ScanLevel(groups[1..], ScanGroup(level, groups[0].attack, groups[0].patterns, text, m), text, m)
  }

  /** `detected_patterns`: every matching pattern, group by group. */
  function DetectedPatterns(groups: seq<PatternGroup>, text: string, m: Matcher): seq<string> {
    if |groups| == 0 then []
    else Matched(groups[0].patterns, text, m) + DetectedPatterns(groups[1..], text, m)
  }

  /** `detected_attacks[0]`, or the bypass type when nothing matched. */
  function PrimaryThreat(groups: seq<PatternGroup>, text: string, m: Matcher): AttackType {
    if |groups| == 0 then BypassAttempt
    else if |Matched(groups[0].patterns, text, m)| > 0 then groups[0].attack
    else PrimaryThreat(groups[1..], text, m)
  }

  /** Every pattern of the table, in order. */
  function AllPatterns(groups: seq<PatternGroup>): seq<string> {
    if |groups| == 0 then [] else groups[0].patterns + AllPatterns(groups[1..])
  }

  lemma {:induction false} MatchedAppend(a: seq<string>, b: seq<string>, text: string, m: Matcher)
    ensures Matched(a + b, text, m) == Matched(a, text, m) + Matched(b, text, m)
  {
    if |a| > 0 {
      assert (a + b)[1..] == a[1..] + b;
      MatchedAppend(a[1..], b, text, m);
    } else {
      assert a + b == b;
    }
  }

  /** The detected patterns are the table's patterns, flattened in order,
      that match. */
  lemma {:induction false} DetectedIsFilter(groups: seq<PatternGroup>, text: string, m: Matcher)
    ensures DetectedPatterns(groups, text, m) == Matched(AllPatterns(groups), text, m)
  {
    if |groups| > 0 {
      DetectedIsFilter(groups[1..], text, m);
      MatchedAppend(groups[0].patterns, AllPatterns(groups[1..]), text, m);
    }
  }

  /** Whether any pattern of the group matches. */
  predicate GroupHit(g: PatternGroup, text: string, m: Matcher) {
    |Matched(g.patterns, text, m)| > 0
  }

  /** The attack types of the table, in scan order. */
  const ScanOrder: seq<AttackType> := [Injection, Jailbreak, PromptLeak, RoleManipulation, DataExtraction]

  predicate InScanOrder(groups: seq<PatternGroup>) {
    |groups| == |ScanOrder| && forall i :: 0 <= i < |groups| ==> groups[i].attack == ScanOrder[i]
  }

  lemma TableInScanOrder()
    ensures InScanOrder(ThreatPatterns)
  {
  }

  /** Whether some group of type `t` in the table has a match. */
  predicate Hit(groups: seq<PatternGroup>, t: AttackType, text: string, m: Matcher) {
    exists i :: 0 <= i < |groups| && groups[i].attack == t && GroupHit(groups[i], text, m)
  }

  /** One group's effect on the level: it escalates once when any of its
      patterns matched. */
  function HitStep(level: ThreatLevel, t: AttackType, hit: bool): ThreatLevel {
    if hit then Escalate(level, t) else level
  }

  /** Scanning a table in scan order applies each group's step in turn. */
  lemma ScanFive(t: seq<PatternGroup>, text: string, m: Matcher)
    requires InScanOrder(t)
    ensures ScanLevel(t, Low, text, m) ==
      HitStep(HitStep(HitStep(HitStep(HitStep(Low, Injection, GroupHit(t[0], text, m)),
        Jailbreak, GroupHit(t[1], text, m)), PromptLeak, GroupHit(t[2], text, m)),
        RoleManipulation, GroupHit(t[3], text, m)), DataExtraction, GroupHit(t[4], text, m))
  {
    var l1 := ScanGroup(Low, t[0].attack, t[0].patterns, text, m);
    var l2 := ScanGroup(l1, t[1].attack, t[1].patterns, text, m);
    var l3 := ScanGroup(l2, t[2].attack, t[2].patterns, text, m);
    var l4 := ScanGroup(l3, t[3].attack, t[3].patterns, text, m);
    var l5 := ScanGroup(l4, t[4].attack, t[4].patterns, text, m);
    assert ScanLevel(t, Low, text, m) == ScanLevel(t[1..], l1, text, m);
    assert ScanLevel(t[1..], l1, text, m) == ScanLevel(t[2..], l2, text, m) by { assert t[1..][1..] == t[2..]; }
    assert ScanLevel(t[2..], l2, text, m) == ScanLevel(t[3..], l3, text, m) by { assert t[2..][1..] == t[3..]; }
    assert ScanLevel(t[3..], l3, text, m) == ScanLevel(t[4..], l4, text, m) by { assert t[3..][1..] == t[4..]; }
    assert ScanLevel(t[4..], l4, text, m) == ScanLevel(t[5..], l5, text, m) by { assert t[4..][1..] == t[5..]; }
    ScanGroupOnce(Low, t[0].attack, t[0].patterns, text, m);
    ScanGroupOnce(l1, t[1].attack, t[1].patterns, text, m);
    ScanGroupOnce(l2, t[2].attack, t[2].patterns, text, m);
    ScanGroupOnce(l3, t[3].attack, t[3].patterns, text, m);
    ScanGroupOnce(l4, t[4].attack, t[4].patterns, text, m);
  }

  /** The steps in scan order: data extraction last makes a match critical;
      otherwise injection or jailbreak gives high, a prompt leak or role
      manipulation medium, and no match low. */
  lemma StepsInScanOrder(h0: bool, h1: bool, h2: bool, h3: bool, h4: bool)
    ensures HitStep(HitStep(HitStep(HitStep(HitStep(Low, Injection, h0), Jailbreak, h1), PromptLeak, h2), RoleManipulation, h3), DataExtraction, h4) ==
      if h4 then Critical else if h0 || h1 then High else if h2 || h3 then Medium else Low
  {
  }

  /** In a table in scan order each type has exactly the group at its
      position. */
  lemma HitAt(t: seq<PatternGroup>, i: nat, text: string, m: Matcher)
    requires InScanOrder(t) && i < |t|
    ensures Hit(t, ScanOrder[i], text, m) <==> GroupHit(t[i], text, m)
  {
    if Hit(t, ScanOrder[i], text, m) {
      var j :| 0 <= j < |t| && t[j].attack == ScanOrder[i] && GroupHit(t[j], text, m);
      assert j == i;
    }
  }

  /** The level the pattern scan leaves, by which types matched. */
  lemma ScanLevelCases(t: seq<PatternGroup>, text: string, m: Matcher)
    requires InScanOrder(t)
    ensures ScanLevel(t, Low, text, m) ==
      if Hit(t, DataExtraction, text, m) then Critical
      else if Hit(t, Injection, text, m) || Hit(t, Jailbreak, text, m) then High
      else if Hit(t, PromptLeak, text, m) || Hit(t, RoleManipulation, text, m) then Medium
      else Low
  {
    ScanFive(t, text, m);
    StepsInScanOrder(GroupHit(t[0], text, m), GroupHit(t[1], text, m), GroupHit(t[2], text, m),
                     GroupHit(t[3], text, m), GroupHit(t[4], text, m));
    HitAt(t, 0, text, m);
    HitAt(t, 1, text, m);
    HitAt(t, 2, text, m);
    HitAt(t, 3, text, m);
    HitAt(t, 4, text, m);
  }

  /** The level after the keyword check: more than three keywords force high
      (replacing even critical); more than one lifts low to medium. */
  function KeywordLevel(level: ThreatLevel, violations: nat): (r: ThreatLevel)
    ensures violations > 3 ==> r == High
    ensures violations <= 1 ==> r == level
    ensures 1 < violations <= 3 ==> r == (if level == Low then Medium else level)
  {
    if violations > 3 then High
    else if violations > 1 && level == Low then Medium
    else level
  }

  /** `_get_mitigation_strategy`: the advice depends on the level only. */
  function MitigationStrategy(t: AttackType, level: ThreatLevel): string {
    Advice(level)
  }

  const CriticalAdvice: string := "Block request immediately, log incident, alert security team"
  const HighAdvice: string := "Reject request with security warning, implement rate limiting"
  const MediumAdvice: string := "Apply content filtering, provide generic response"
  const LowAdvice: string := "Monitor and log, apply standard safety measures"

  /** The advice for each threat level. */
  function Advice(level: ThreatLevel): string {
    match level
    case Critical => CriticalAdvice
    case High => HighAdvice
    case Medium => MediumAdvice
    case Low => LowAdvice
  }

  lemma AdviceDistinct()
    ensures CriticalAdvice != HighAdvice && CriticalAdvice != MediumAdvice && CriticalAdvice != LowAdvice
    ensures HighAdvice != MediumAdvice && HighAdvice != LowAdvice && MediumAdvice != LowAdvice
  {
  }

  /** The attack type never changes the advice, and each level has its own. */
  lemma MitigationByLevel(t1: AttackType, t2: AttackType, a: ThreatLevel, b: ThreatLevel)
    ensures MitigationStrategy(t1, a) == MitigationStrategy(t2, a)
    ensures MitigationStrategy(t1, a) == MitigationStrategy(t2, b) <==> a == b
  {
    AdviceDistinct();
  }

  datatype SecurityThreat = SecurityThreat(
    threatType: AttackType,
    threatLevel: ThreatLevel,
    confidence: real,
    detectedPatterns: seq<string>,
    inputText: string,
    mitigationStrategy: string)

  /** The number of safety keywords in the lowered input. */
  function SafetyViolations(text: string): (n: nat)
    ensures n <= |SafetyKeywords|
  {
    CountPresentBounds(SafetyKeywords, Lower(text));
    CountPresent(SafetyKeywords, Lower(text))
  }


  /** No group of the table is of the bypass type, which is reserved for
      the case where nothing matched. */
  predicate NoBypassGroup(groups: seq<PatternGroup>) {
    forall g :: g in groups ==> g.attack != BypassAttempt
  }

  /** `analyze_threat` against a pattern table. */
  function Analyze(groups: seq<PatternGroup>, text: string, m: Matcher): (r: SecurityThreat)
    requires NoBypassGroup(groups)
    ensures r.detectedPatterns == Matched(AllPatterns(groups), text, m)
    ensures r.threatLevel == KeywordLevel(ScanLevel(groups, Low, text, m), SafetyViolations(text))
    ensures r.confidence == Capped((|r.detectedPatterns| + SafetyViolations(text)) as real / 5.0)
    ensures 0.0 <= r.confidence <= 1.0
    ensures r.threatType == BypassAttempt <==> |r.detectedPatterns| == 0
    ensures r.mitigationStrategy == MitigationStrategy(r.threatType, r.threatLevel)
    ensures r.inputText == text
  {
    var patterns := DetectedPatterns(groups, text, m);
    DetectedIsFilter(groups, text, m);
    var v := SafetyViolations(text);
    var level := KeywordLevel(ScanLevel(groups, Low, text, m), v);
    var primary := PrimaryThreat(groups, text, m);
    PrimaryIsBypassIffNone(groups, text, m);
    var confidence := Capped((|patterns| + v) as real / 5.0);
    SecurityThreat(primary, level, confidence, patterns, text, MitigationStrategy(primary, level))
  }

  lemma TableHasNoBypass()
    ensures NoBypassGroup(ThreatPatterns)
  {
  }

  /** `analyze_threat` with the analyser's own table. */
  function AnalyzeThreat(text: string, m: Matcher): (r: SecurityThreat)
    ensures r == Analyze(ThreatPatterns, text, m)
  {
    TableHasNoBypass();
    Analyze(ThreatPatterns, text, m)
  }

  /** Only the bypass type is reported when no pattern matched; no table
      group is of that type. */
  lemma {:induction false} PrimaryIsBypassIffNone(groups: seq<PatternGroup>, text: string, m: Matcher)
    requires NoBypassGroup(groups)
    ensures PrimaryThreat(groups, text, m) == BypassAttempt <==> |DetectedPatterns(groups, text, m)| == 0
  {
    if |groups| > 0 {
      assert groups[0] in groups;
      assert forall g :: g in groups[1..] ==> g in groups;
      PrimaryIsBypassIffNone(groups[1..], text, m);
    }
  }

  /** The primary threat is the type of the first table group with a match. */
  lemma {:induction false} PrimaryIsFirstHit(groups: seq<PatternGroup>, text: string, m: Matcher, k: nat)
    requires k < |groups| && |Matched(groups[k].patterns, text, m)| > 0
    requires forall i :: 0 <= i < k ==> |Matched(groups[i].patterns, text, m)| == 0
    ensures PrimaryThreat(groups, text, m) == groups[k].attack
  {
    if k > 0 {
      PrimaryIsFirstHit(groups[1..], text, m, k - 1);
    }
  }

  // ---------------------------------------------------------------------
  // Handling a request
  // ---------------------------------------------------------------------

  const Refusal: string :=
    "I cannot process this request due to safety constraints. Please rephrase your request in a constructive manner."

  /** The model behind the secure wrapper, given the user input and the base
      prompt. */
  type Responder = (string, string) -> string

  datatype SecurityAnalysis = SecurityAnalysis(
    threatDetected: bool, threatType: string, threatLevel: string, confidence: real, mitigationApplied: string)

  datatype Handled = Handled(response: string, analysis: SecurityAnalysis, blocked: bool)

  predicate ShouldBlock(threat: SecurityThreat) {
    threat.threatLevel == High || threat.threatLevel == Critical || threat.confidence > 0.7
  }

  /** `process_with_security`: a blocked request gets the fixed refusal and
      the model is not called; otherwise the model answers and a threat is
      reported when the confidence exceeds 0.3. */
  function ProcessWithSecurity(userInput: string, basePrompt: string, m: Matcher, respond: Responder): (h: Handled)
    ensures var threat := AnalyzeThreat(userInput, m);
      && (h.blocked <==> ShouldBlock(threat))
      && h.analysis.threatType == threat.threatType.Value()
      && h.analysis.threatLevel == threat.threatLevel.Value()
      && h.analysis.confidence == threat.confidence
      && (h.blocked ==> h.response == Refusal && h.analysis.threatDetected
                        && h.analysis.mitigationApplied == threat.mitigationStrategy)
      && (!h.blocked ==> h.response == respond(userInput, basePrompt)
                         && (h.analysis.threatDetected <==> threat.confidence > 0.3)
                         && h.analysis.mitigationApplied == "Standard safety measures applied")
  {
    var threat := AnalyzeThreat(userInput, m);
    if ShouldBlock(threat) then
      Handled(Refusal,
              SecurityAnalysis(true, threat.threatType.Value(), threat.threatLevel.Value(), threat.confidence,
                               threat.mitigationStrategy),
              true)
    else
      Handled(respond(userInput, basePrompt),
              SecurityAnalysis(threat.confidence > 0.3, threat.threatType.Value(), threat.threatLevel.Value(),
                               threat.confidence, "Standard safety measures applied"),
              false)
  }

  /** A blocked request never reaches the model: whatever the model would
      say, the result is the same. */
  lemma BlockedIgnoresModel(userInput: string, basePrompt: string, m: Matcher, r1: Responder, r2: Responder)
    ensures ProcessWithSecurity(userInput, basePrompt, m, r1).blocked ==>
      ProcessWithSecurity(userInput, basePrompt, m, r1) == ProcessWithSecurity(userInput, basePrompt, m, r2)
  {
  }

  /** Four or more safety keywords always block, whatever the patterns. */
  lemma ManyKeywordsBlock(userInput: string, basePrompt: string, m: Matcher, respond: Responder)
    requires SafetyViolations(userInput) > 3
    ensures ProcessWithSecurity(userInput, basePrompt, m, respond).blocked
    ensures AnalyzeThreat(userInput, m).threatLevel == High
  {
  }

  /** Against a table in scan order, a threat calls for blocking exactly
      when a data-extraction, injection or jailbreak pattern matches, more
      than three keywords occur, or patterns and keywords together number
      more than three. */
  lemma ShouldBlockIff(t: seq<PatternGroup>, text: string, m: Matcher)
    requires InScanOrder(t) && NoBypassGroup(t)
    ensures var n := |Matched(AllPatterns(t), text, m)| + SafetyViolations(text);
      ShouldBlock(Analyze(t, text, m)) <==>
        || Hit(t, DataExtraction, text, m) || Hit(t, Injection, text, m) || Hit(t, Jailbreak, text, m)
        || SafetyViolations(text) > 3
        || n > 3
  {
    ScanLevelCases(t, text, m);
    var n := |Matched(AllPatterns(t), text, m)| + SafetyViolations(text);
    assert (Capped(n as real / 5.0) > 0.7) <==> n > 3;
  }

  /** `process_with_security` blocks exactly the requests above. */
  lemma BlockedIff(userInput: string, basePrompt: string, m: Matcher, respond: Responder)
    ensures var n := |Matched(AllPatterns(ThreatPatterns), userInput, m)| + SafetyViolations(userInput);
      ProcessWithSecurity(userInput, basePrompt, m, respond).blocked <==>
        || Hit(ThreatPatterns, DataExtraction, userInput, m)
        || Hit(ThreatPatterns, Injection, userInput, m)
        || Hit(ThreatPatterns, Jailbreak, userInput, m)
        || SafetyViolations(userInput) > 3
        || n > 3
  {
    TableInScanOrder();
    TableHasNoBypass();
    ShouldBlockIff(ThreatPatterns, userInput, m);
  }
}
