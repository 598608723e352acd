/** Handling ambiguity: flagging ambiguous and vague words in a prompt,
    and prefixing a prompt with the context that disambiguates it. */
module Ambiguity {
  import opened Text
  import opened Oracles
  import opened Selection

  /** Words with more than one common meaning. */
  const AmbiguousWords: seq<string> := ["bank", "bat", "bark", "fair", "light", "spring", "table", "charge"]

  /** Words that say little. */
  const VagueWords: seq<string> := ["something", "things", "stuff", "good", "bad", "nice", "better"]

  datatype AmbiguityReport = AmbiguityReport(
    ambiguityScore: nat,
    ambiguousTerms: seq<string>,
    vagueTerms: seq<string>,
    needsClarification: bool)

  /** `_detect_ambiguity`: the listed words occurring in the lowered text,
      in list order, and their number. */
  function DetectAmbiguity(text: string): (r: AmbiguityReport)
    ensures forall w :: w in r.ambiguousTerms <==> w in AmbiguousWords && Contains(Lower(text), w)
    ensures forall w :: w in r.vagueTerms <==> w in VagueWords && Contains(Lower(text), w)
    ensures SelectsInOrder(r.ambiguousTerms, AmbiguousWords, InText(Lower(text)), Identity())
    ensures SelectsInOrder(r.vagueTerms, VagueWords, InText(Lower(text)), Identity())
    ensures r.ambiguityScore == |r.ambiguousTerms| + |r.vagueTerms| <= 15
    ensures r.needsClarification <==> r.ambiguityScore > 0
    ensures r.needsClarification <==>
      (exists w :: (w in AmbiguousWords || w in VagueWords) && Contains(Lower(text), w))
  {
    var ambiguous := Present(AmbiguousWords, Lower(text));
    var vague := Present(VagueWords, Lower(text));
    CountPresentBounds(AmbiguousWords, Lower(text));
    CountPresentBounds(VagueWords, Lower(text));
    PresentInOrder(AmbiguousWords, Lower(text));
    PresentInOrder(VagueWords, Lower(text));
    var score := |ambiguous| + |vague|;
    AmbiguityReport(score, ambiguous, vague, score > 0)
  }

  /** Adding text before or after a prompt never lowers its score: every
      word found is still found. */
  lemma DetectMonotone(before: string, text: string, after: string)
    ensures DetectAmbiguity(text).ambiguityScore <= DetectAmbiguity(before + text + after).ambiguityScore
  {
    var big := before + text + after;
    LowerAppend(before, text);
    LowerAppend(before + text, after);
    assert Lower(big) == Lower(before) + Lower(text) + Lower(after);
    forall k | Contains(Lower(text), k) ensures Contains(Lower(big), k) {
      ContainsAppend(Lower(before), Lower(text), k);
      ContainsAppend(Lower(before) + Lower(text), Lower(after), k);
    }
    CountPresentMonotone(AmbiguousWords, Lower(text), Lower(big));
    CountPresentMonotone(VagueWords, Lower(text), Lower(big));
  }

  const ContextSeparator: string := "\n\nBased on this context: "

  /** The prompt `_resolve_with_context` sends: the context, a blank line,
      and the prompt introduced as based on it. */
  function ClarifiedPrompt(prompt: string, context: string): (r: string)
    ensures |r| == |context| + |ContextSeparator| + |prompt|
    ensures r[..|context|] == context
    ensures r[|context|..|context| + |ContextSeparator|] == ContextSeparator
    ensures r[|context| + |ContextSeparator|..] == prompt
  {
    context + ContextSeparator + prompt
  }

  /** The prompt can be read back from the clarified prompt, given the
      context. */
  lemma ClarifiedPromptInjective(p1: string, p2: string, context: string)
    requires ClarifiedPrompt(p1, context) == ClarifiedPrompt(p2, context)
    ensures p1 == p2
  {
    var n := |context| + |ContextSeparator|;
    assert p1 == ClarifiedPrompt(p1, context)[n..];
  }

  /** `_resolve_with_context`: the model's answer to the clarified prompt. */
  function ResolveWithContext(prompt: string, context: string, llm: Llm): (r: string)
    ensures r == llm(ClarifiedPrompt(prompt, context))
  {
    llm(context + ContextSeparator + prompt)
  }
}
