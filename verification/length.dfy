/** Length management: word, character and sentence counts of a prompt, a
    readability score preferring short sentences, and the efficiency score
    used to pick the best of several prompt variants. */
module Length {
  import opened Text
  import opened Wrappers
  import opened Numeric

  predicate IsTerminal(c: char) {
    c == '.' || c == '!' || c == '?'
  }

  /** The number of maximal runs of '.', '!' and '?' in `s`, given whether
      the character before `s` ended a sentence:
      `len(re.findall(r'[.!?]+', text))`. */
  function Runs(s: string, inRun: bool): nat
    decreases |s|
  {
    if |s| == 0 then 0
    else if IsTerminal(s[0]) then (if inRun then 0 else 1) + Runs(s[1..], true)
    else Runs(s[1..], false)
  }

  function SentenceCount(text: string): nat {
    Runs(text, false)
  }

  function CountTerminals(s: string): nat {
    if |s| == 0 then 0 else (if IsTerminal(s[0]) then 1 else 0) + CountTerminals(s[1..])
  }

  /** There are no more runs than terminal characters, and none exactly
      when there is no terminal character. */
  lemma {:induction false} RunsBounds(s: string, inRun: bool)
    ensures Runs(s, inRun) <= CountTerminals(s)
    ensures !inRun ==> (Runs(s, inRun) == 0 <==> CountTerminals(s) == 0)
    decreases |s|
  {
    if |s| > 0 {
      RunsBounds(s[1..], IsTerminal(s[0]));
    }
  }

  /** A sentence count of zero means the text has no '.', '!' or '?'. */
  lemma SentenceCountZero(text: string)
    ensures SentenceCount(text) == 0 <==> forall i :: 0 <= i < |text| ==> !IsTerminal(text[i])
    ensures SentenceCount(text) <= CountTerminals(text)
  {
    RunsBounds(text, false);
    TerminalsZero(text);
  }

  lemma {:induction false} TerminalsZero(s: string)
    ensures CountTerminals(s) == 0 <==> forall i :: 0 <= i < |s| ==> !IsTerminal(s[i])
  {
    if |s| > 0 {
      TerminalsZero(s[1..]);
      assert forall i :: 1 <= i < |s| ==> s[i] == s[1..][i - 1];
    }
  }

  /** The sentence runs of two texts do not merge when the first ends in
      some other character, so their counts add up. */
  lemma {:induction false} SentenceCountAppend(a: string, b: string)
    requires |a| > 0 && !IsTerminal(a[|a| - 1])
    ensures SentenceCount(a + b) == SentenceCount(a) + SentenceCount(b)
  {
    RunsAppend(a, b, false);
  }

  lemma {:induction false} RunsAppend(a: string, b: string, inRun: bool)
    requires |a| > 0 && !IsTerminal(a[|a| - 1])
    ensures Runs(a + b, inRun) == Runs(a, inRun) + Runs(b, false)
    decreases |a|
  {
    assert (a + b)[1..] == a[1..] + b;
    if |a| > 1 {
      RunsAppend(a[1..], b, IsTerminal(a[0]));
    } else {
      assert (a + b)[1..] == b;
    }
  }

  datatype LengthAnalysis = LengthAnalysis(
    wordCount: nat,
    charCount: nat,
    sentenceCount: nat,
    avgSentenceLength: real,
    readabilityScore: real)

  /** `10 - min(avg / 3, 8)`: one point off per three words a sentence,
      never below 2. */
  function ReadabilityOf(avg: real): (r: real)
    requires avg >= 0.0
    ensures 2.0 <= r <= 10.0
    ensures r == 10.0 <==> avg == 0.0
    ensures r == 2.0 <==> avg >= 24.0
  {
    10.0 - (if avg / 3.0 <= 8.0 then avg / 3.0 else 8.0)
  }

  /** `_analyze_length`: words per sentence, with a text lacking any
      sentence mark counting as one sentence. */
  function AnalyzeLength(text: string): (r: LengthAnalysis)
    ensures r.wordCount == |Words(text)| && r.charCount == |text|
    ensures r.sentenceCount == SentenceCount(text)
    ensures r.avgSentenceLength == r.wordCount as real / (if r.sentenceCount > 1 then r.sentenceCount else 1) as real
    ensures r.readabilityScore == ReadabilityOf(r.avgSentenceLength)
    ensures 2.0 <= r.readabilityScore <= 10.0
    ensures r.readabilityScore == 10.0 <==> r.wordCount == 0
  {
    var words := WordCount(text);
    var sentences := SentenceCount(text);
    var divisor := if sentences > 1 then sentences else 1;
    var avg := words as real / divisor as real;
    AverageZero(words, divisor);
    LengthAnalysis(words, |text|, sentences, avg, ReadabilityOf(avg))
  }

  lemma AverageZero(words: nat, divisor: nat)
    requires divisor > 0
    ensures words as real / divisor as real >= 0.0
    ensures words as real / divisor as real == 0.0 <==> words == 0
  {
    var q := words as real / divisor as real;
    assert q * divisor as real == words as real;
  }

  /** The efficiency score of a variant: readability plus a bonus for few
      words, `100 / max(words, 1)`. */
  function EfficiencyOf(a: LengthAnalysis): (r: real)
    requires 2.0 <= a.readabilityScore <= 10.0
    ensures 2.0 < r <= 110.0
    ensures a.wordCount <= 1 ==> r == a.readabilityScore + 100.0
    ensures (r - a.readabilityScore) * (if a.wordCount > 1 then a.wordCount else 1) as real == 100.0
  {
    var n := if a.wordCount > 1 then a.wordCount else 1;
    BonusBounds(n);
    a.readabilityScore + 100.0 / n as real
  }

  /** Of two variants equally readable, the shorter scores at least as
      high. */
  lemma EfficiencyPrefersShorter(a: LengthAnalysis, b: LengthAnalysis)
    requires 2.0 <= a.readabilityScore <= 10.0 && a.readabilityScore == b.readabilityScore
    requires a.wordCount <= b.wordCount
    ensures EfficiencyOf(b) <= EfficiencyOf(a)
  {
    var m := if a.wordCount > 1 then a.wordCount else 1;
    var n := if b.wordCount > 1 then b.wordCount else 1;
    QuotientAntitone(100.0, m, n);
  }

  lemma BonusBounds(n: nat)
    requires n >= 1
    ensures 0.0 < 100.0 / n as real <= 100.0
  {
  }

  /** `j` has the highest score, and every earlier one a lower score. */
  predicate FirstBest(scores: seq<(string, real)>, j: nat)
    requires j < |scores|
  {
    && (forall i :: 0 <= i < |scores| ==> scores[i].1 <= scores[j].1)
    && (forall i :: 0 <= i < j ==> scores[i].1 < scores[j].1)
  }

  /** The first variant with the highest efficiency score, the way `max`
      keeps the first of equal keys; there is none without variants. */
  function BestVariant(scores: seq<(string, real)>): (r: Option<nat>)
    ensures r.None? <==> |scores| == 0
    ensures r.Some? ==> r.value < |scores| && FirstBest(scores, r.value)
  {
    if |scores| == 0 then None else Some(FirstMax(scores, 0, 1))
  }

  /** The first index of the largest score, scanning from `k` with `best`
      the first largest so far. */
  function FirstMax(scores: seq<(string, real)>, best: nat, k: nat): (j: nat)
    requires best < k <= |scores|
    requires forall i :: 0 <= i < k ==> scores[i].1 <= scores[best].1
    requires forall i :: 0 <= i < best ==> scores[i].1 < scores[best].1
    ensures j < |scores|
    ensures forall i :: 0 <= i < |scores| ==> scores[i].1 <= scores[j].1
    ensures forall i :: 0 <= i < j ==> scores[i].1 < scores[j].1
    decreases |scores| - k
  {
    if k == |scores| then best
    else if scores[k].1 > scores[best].1 then FirstMax(scores, k, k + 1)
    else FirstMax(scores, best, k + 1)
  }
}
