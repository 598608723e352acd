/** Negative prompting: a validator holding exclusion patterns grouped by
    constraint type, the check of a response against the forbidden words
    and phrases, and the score derived from the violations found.

    A pattern test is `re.search(pattern, text, re.IGNORECASE)`, supplied as
    the `Matcher` parameter. */
module Negative {
  import opened Oracles
  import opened Wrappers
  import opened OrderedMap
  import opened Selection
  import opened Numeric

  datatype Constraint = Constraint(pattern: string, severity: string)

  type ConstraintMap = OMap<string, seq<Constraint>>

  const ForbiddenWords: string := "forbidden_words"
  const ForbiddenPhrases: string := "forbidden_phrases"

  /** The five types a new validator starts with, each with no pattern. */
  const InitialTypes: seq<string> :=
    [ForbiddenWords, ForbiddenPhrases, "style_constraints", "content_constraints", "format_constraints"]

  function NewValidator(): (v: ConstraintMap)
    ensures v.Valid() && v.keys == InitialTypes
    ensures forall t :: t in InitialTypes ==> v.Get(t) == Some([])
  {
    OMap(InitialTypes, map t | t in InitialTypes :: [])
  }

  /** The patterns of a type, `constraint_patterns.get(t, [])`. */
  function PatternsOf(v: ConstraintMap, t: string): seq<Constraint> {
    v.Get(t).GetOr([])
  }

  /** The severity `add_constraint` uses when none is given. */
  const DefaultSeverity: string := "medium"

  /** `add_constraint`: an unseen type gets a list of its own, placed last;
      the pattern is appended to its type's list. */
  function AddConstraint(v: ConstraintMap, t: string, pattern: string, severity: string := DefaultSeverity): (w: ConstraintMap)
    requires v.Valid()
    ensures w.Valid()
    ensures PatternsOf(w, t) == PatternsOf(v, t) + [Constraint(pattern, severity)]
    ensures forall u :: u != t ==> PatternsOf(w, u) == PatternsOf(v, u)
    ensures t in v.keys ==> w.keys == v.keys
    ensures t !in v.keys ==> w.keys == v.keys + [t]
  {
    var v1 := if t !in v.keys then v.Put(t, []) else v;
    assert t in v1.values;
    v1.Put(t, v1.values[t] + [Constraint(pattern, severity)])
  }

  /** A violation found in a response. */
  datatype Violation = Violation(constraintType: string, violationText: string, severity: string, suggestion: string)

  function Suggestion(t: string, pattern: string): string {
    if t == ForbiddenWords then "Remove or replace instances of '" + pattern + "'"
    else "Rewrite to avoid '" + pattern + "'"
  }

  function ViolationFor(t: string, c: Constraint): Violation {
    Violation(t, c.pattern, c.severity, Suggestion(t, c.pattern))
  }

  /** One violation per matching constraint of the list, in list order. */
  function CheckList(t: string, cs: seq<Constraint>, text: string, m: Matcher): (r: seq<Violation>)
    ensures |r| <= |cs|
    ensures forall x :: x in r ==> x.constraintType == t
    ensures forall c :: c in cs && m(c.pattern, text) ==> ViolationFor(t, c) in r
    ensures forall x :: x in r ==> exists c :: c in cs && m(c.pattern, text) && x == ViolationFor(t, c)
  {
    if |cs| == 0 then []
    else
      var rest := CheckList(t, cs[1..], text, m);
      assert forall c :: c in cs ==> c == cs[0] || c in cs[1..];
      assert forall c :: c in cs[1..] ==> c in cs;
      (if m(cs[0].pattern, text) then [ViolationFor(t, cs[0])] else []) + rest
  }

  /** The test "the constraint's pattern matches `text`", as a value. */
  function HitIn(m: Matcher, text: string): Constraint -> bool {
    (c: Constraint) => m(c.pattern, text)
  }

  function ViolationOf(t: string): Constraint -> Violation {
    (c: Constraint) => ViolationFor(t, c)
  }

  /** `CheckList` reports exactly one violation per matching constraint, in
      the order the constraints were added. */
  lemma {:induction false} CheckListInOrder(t: string, cs: seq<Constraint>, text: string, m: Matcher)
    ensures SelectsInOrder(CheckList(t, cs, text, m), cs, HitIn(m, text), ViolationOf(t))
  {
    if |cs| > 0 {
      CheckListInOrder(t, cs[1..], text, m);
      SelectsCons(CheckList(t, cs[1..], text, m), cs, HitIn(m, text), ViolationOf(t));
    }
  }

  /** `validate_output`: the forbidden words, then the forbidden phrases;
      no other type is checked. */
  function ValidateOutput(v: ConstraintMap, text: string, m: Matcher): (r: seq<Violation>)
    ensures r == CheckList(ForbiddenWords, PatternsOf(v, ForbiddenWords), text, m)
               + CheckList(ForbiddenPhrases, PatternsOf(v, ForbiddenPhrases), text, m)
    ensures forall x :: x in r ==> x.constraintType in {ForbiddenWords, ForbiddenPhrases}
  {
    CheckList(ForbiddenWords, PatternsOf(v, ForbiddenWords), text, m)
      + CheckList(ForbiddenPhrases, PatternsOf(v, ForbiddenPhrases), text, m)
  }

  /** A constraint of any other type, content constraints among them, never
      changes the violations found. */
  lemma OtherTypesIgnored(v: ConstraintMap, t: string, pattern: string, severity: string, text: string, m: Matcher)
    requires v.Valid() && t != ForbiddenWords && t != ForbiddenPhrases
    ensures ValidateOutput(AddConstraint(v, t, pattern, severity), text, m) == ValidateOutput(v, text, m)
  {
  }

  /** A forbidden word that matches is reported with its pattern, severity
      and suggestion. */
  lemma MatchingWordReported(v: ConstraintMap, pattern: string, severity: string, text: string, m: Matcher)
    requires v.Valid() && m(pattern, text)
    ensures Violation(ForbiddenWords, pattern, severity, "Remove or replace instances of '" + pattern + "'")
      in ValidateOutput(AddConstraint(v, ForbiddenWords, pattern, severity), text, m)
  {
    var w := AddConstraint(v, ForbiddenWords, pattern, severity);
    var c := Constraint(pattern, severity);
    assert c in PatternsOf(w, ForbiddenWords);
  }

  // ---------------------------------------------------------------------
  // Score
  // ---------------------------------------------------------------------

  /** `severity_weights.get(s, 0.3)`. */
  function SeverityWeight(s: string): (w: real)
    ensures 0.1 <= w <= 0.6
  {
    if s == "low" then 0.1 else if s == "medium" then 0.3 else if s == "high" then 0.6 else 0.3
  }

  function TotalPenalty(vs: seq<Violation>): (p: real)
    ensures 0.1 * |vs| as real <= p <= 0.6 * |vs| as real
  {
    if |vs| == 0 then 0.0 else SeverityWeight(vs[0].severity) + TotalPenalty(vs[1..])
  }

  /** `get_violation_score`: 1 with no violation, else 1 less the mean
      penalty; the mean lies in `[0.1, 0.6]`, so the floor at 0 never binds
      and any violation costs at least 0.1. */
  function ViolationScore(vs: seq<Violation>): (r: real)
    ensures |vs| == 0 ==> r == 1.0
    ensures |vs| > 0 ==> r == 1.0 - TotalPenalty(vs) / |vs| as real
    ensures 0.4 <= r <= 1.0
    ensures |vs| > 0 ==> r <= 0.9
  {
    if |vs| == 0 then 1.0
    else
      var mean := TotalPenalty(vs) / |vs| as real;
      MeanBounds(TotalPenalty(vs), |vs|);
      var score := 1.0 - mean;
      if score < 0.0 then 0.0 else score
  }

  lemma MeanBounds(p: real, n: nat)
    requires n > 0 && 0.1 * n as real <= p <= 0.6 * n as real
    ensures 0.1 <= p / n as real <= 0.6
  {
  }

  /** Violations all of high severity give the lowest score, all of low
      severity the highest short of 1. */
  lemma {:induction false} UniformSeverity(vs: seq<Violation>, s: string)
    requires |vs| > 0 && forall i :: 0 <= i < |vs| ==> vs[i].severity == s
    ensures ViolationScore(vs) == 1.0 - SeverityWeight(s)
  {
    UniformPenalty(vs, s);
    MeanOfEqual(SeverityWeight(s), |vs|);
  }

  lemma {:induction false} UniformPenalty(vs: seq<Violation>, s: string)
    requires forall i :: 0 <= i < |vs| ==> vs[i].severity == s
    ensures TotalPenalty(vs) == SeverityWeight(s) * |vs| as real
  {
    if |vs| > 0 {
      UniformPenalty(vs[1..], s);
    }
  }
}
