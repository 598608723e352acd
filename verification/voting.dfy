/** Self-consistency voting: exact-match majority vote, grouping of similar
    answers, and the consistency ratios of a set of responses.

    Extracting the final answer from a response is a regex cascade; it is a
    parameter here (`Extractor`). */
module Voting {
  import opened Text
  import opened Wrappers
  import opened Numeric
  import opened OrderedMap

  type Extractor = string -> string

  // ---------------------------------------------------------------------
  // Counting in first-seen order (`collections.Counter`)
  // ---------------------------------------------------------------------

  /** The distinct elements of `xs`, in order of first occurrence. */
  function FirstSeen(xs: seq<string>): (ks: seq<string>)
    ensures Distinct(ks) && |ks| <= |xs|
    ensures forall x :: x in ks <==> x in xs
    ensures |xs| > 0 ==> |ks| > 0
  {
    if |xs| == 0 then []
    else
      var ks := FirstSeen(xs[..|xs| - 1]);
      var last := xs[|xs| - 1];
      assert forall x :: x in xs <==> x in xs[..|xs| - 1] || x == last;
      if last in ks then ks else ks + [last]
  }

  /** Index of the first occurrence of `x`. */
  function FirstIndex(xs: seq<string>, x: string): (i: nat)
    requires x in xs
    ensures i < |xs| && xs[i] == x && x !in xs[..i]
  {
    if xs[0] == x then 0 else 1 + FirstIndex(xs[1..], x)
  }

  lemma {:induction false} FirstIndexPrefix(xs: seq<string>, n: nat, x: string)
    requires n <= |xs| && x in xs[..n]
    ensures FirstIndex(xs, x) == FirstIndex(xs[..n], x)
  {
    if xs[0] != x {
      assert xs[1..][..n - 1] == xs[..n][1..];
      FirstIndexPrefix(xs[1..], n - 1, x);
    }
  }

  /** First-seen order is the order of first occurrences. */
  lemma {:induction false} FirstSeenOrder(xs: seq<string>, i: nat, j: nat)
    requires i < j < |FirstSeen(xs)|
    ensures FirstIndex(xs, FirstSeen(xs)[i]) < FirstIndex(xs, FirstSeen(xs)[j])
  {
    var init := xs[..|xs| - 1];
    var ks := FirstSeen(init);
    var a, b := FirstSeen(xs)[i], FirstSeen(xs)[j];
    assert a == ks[i];
    assert a in init;
    FirstIndexPrefix(xs, |xs| - 1, a);
    if j < |ks| {
      assert b == ks[j] && b in init;
      FirstIndexPrefix(xs, |xs| - 1, b);
      FirstSeenOrder(init, i, j);
    } else {
      assert b == xs[|xs| - 1] && b !in init;
      assert FirstIndex(xs, b) == |xs| - 1;
    }
  }

  function Occurrences(xs: seq<string>, x: string): nat {
    multiset(xs)[x]
  }

  /** The counts of `keys`, in their order. */
  function CountsOf(keys: seq<string>, xs: seq<string>): (cs: seq<int>)
    ensures |cs| == |keys| && forall i :: 0 <= i < |keys| ==> cs[i] == Occurrences(xs, keys[i])
  {
    seq(|keys|, i requires 0 <= i < |keys| => Occurrences(xs, keys[i]))
  }

  lemma {:induction false} CountsOfExtend(keys: seq<string>, xs: seq<string>, y: string)
    requires Distinct(keys)
    ensures Sum(CountsOf(keys, xs + [y])) == Sum(CountsOf(keys, xs)) + (if y in keys then 1 else 0)
  {
    if |keys| > 0 {
      assert CountsOf(keys, xs + [y])[1..] == CountsOf(keys[1..], xs + [y]);
      assert CountsOf(keys, xs)[1..] == CountsOf(keys[1..], xs);
      assert multiset(xs + [y]) == multiset(xs) + multiset{y};
      CountsOfExtend(keys[1..], xs, y);
    }
  }

  /** The counts of the distinct responses add up to the number of responses. */
  lemma {:induction false} CountsSumToTotal(xs: seq<string>)
    ensures Sum(CountsOf(FirstSeen(xs), xs)) == |xs|
  {
    if |xs| > 0 {
      var init, y := xs[..|xs| - 1], xs[|xs| - 1];
      assert xs == init + [y];
      var ks := FirstSeen(init);
      CountsSumToTotal(init);
      CountsOfExtend(ks, init, y);
      if y !in ks {
        assert CountsOf(ks + [y], xs) == CountsOf(ks, xs) + [Occurrences(xs, y)];
        SumAppend(CountsOf(ks, xs), Occurrences(xs, y));
        assert y !in init;
        assert multiset(xs) == multiset(init) + multiset{y};
      }
    }
  }

  lemma CountsPositive(xs: seq<string>)
    ensures forall i :: 0 <= i < |FirstSeen(xs)| ==> CountsOf(FirstSeen(xs), xs)[i] >= 1
  {
    forall i | 0 <= i < |FirstSeen(xs)|
      ensures Occurrences(xs, FirstSeen(xs)[i]) >= 1
    {
      assert FirstSeen(xs)[i] in FirstSeen(xs);
      assert FirstSeen(xs)[i] in multiset(xs);
    }
  }

  // ---------------------------------------------------------------------
  // Majority vote
  // ---------------------------------------------------------------------

  /** A vote's outcome; with no responses the winner is "" and the
      confidence 0.0. */
  datatype Vote =
    | NoResponses
    | Vote(winner: string, winnerCount: nat, confidence: real,
           voteCounts: seq<(string, nat)>, totalResponses: nat)
  {
    function Winner(): string {
      if NoResponses? then "" else winner
    }

    function Confidence(): real {
      if NoResponses? then 0.0 else confidence
    }

    function Counts(): seq<(string, nat)> {
      if NoResponses? then [] else voteCounts
    }
  }

  const NoResponsesAnalysis: string := "No responses provided"

  function Pairs(keys: seq<string>, counts: seq<int>): (ps: seq<(string, nat)>)
    requires |keys| == |counts| && forall i :: 0 <= i < |counts| ==> counts[i] >= 0
    ensures |ps| == |keys| && forall i :: 0 <= i < |keys| ==> ps[i] == (keys[i], counts[i] as nat)
  {
    seq(|keys|, i requires 0 <= i < |keys| == |counts| && counts[i] >= 0 => (keys[i], counts[i] as nat))
  }

  /** The response with the largest count, the first seen among equals. */
  function MostCommon(xs: seq<string>): (w: string)
    requires |xs| > 0
    ensures w in xs
    ensures forall x :: x in xs ==> Occurrences(xs, x) <= Occurrences(xs, w)
    ensures forall x :: x in xs && FirstIndex(xs, x) < FirstIndex(xs, w) ==> Occurrences(xs, x) < Occurrences(xs, w)
  {
    var ks := FirstSeen(xs);
    var j := ArgMaxFirst(CountsOf(ks, xs));
    MostCommonFacts(xs);
    ks[j]
  }

  lemma {:induction false} MostCommonFacts(xs: seq<string>)
    requires |xs| > 0
    ensures var ks := FirstSeen(xs); var j := ArgMaxFirst(CountsOf(ks, xs));
      && (forall x :: x in xs ==> Occurrences(xs, x) <= Occurrences(xs, ks[j]))
      && (forall x :: x in xs && FirstIndex(xs, x) < FirstIndex(xs, ks[j]) ==> Occurrences(xs, x) < Occurrences(xs, ks[j]))
  {
    var ks := FirstSeen(xs);
    var cs := CountsOf(ks, xs);
    var j := ArgMaxFirst(cs);
    forall x | x in xs
      ensures Occurrences(xs, x) <= Occurrences(xs, ks[j])
      ensures FirstIndex(xs, x) < FirstIndex(xs, ks[j]) ==> Occurrences(xs, x) < Occurrences(xs, ks[j])
    {
      assert x in ks;
      var i :| 0 <= i < |ks| && ks[i] == x;
      assert cs[i] <= cs[j];
      if j < i {
        FirstSeenOrder(xs, j, i);
      } else if i < j {
        assert cs[i] < cs[j];
      }
    }
  }

  /** `simple_majority_vote`: the most frequent response wins; among equally
      frequent ones, the one seen first. */
  function SimpleMajorityVote(responses: seq<string>): (v: Vote)
    ensures v.NoResponses? <==> |responses| == 0
    ensures v.Vote? ==>
      && v.winner in responses
      && v.winnerCount == Occurrences(responses, v.winner)
      && v.totalResponses == |responses|
      && (forall x :: x in responses ==> Occurrences(responses, x) <= v.winnerCount)
      && (forall x :: x in responses && FirstIndex(responses, x) < FirstIndex(responses, v.winner) ==>
            Occurrences(responses, x) < v.winnerCount)
      && v.confidence == v.winnerCount as real / |responses| as real
      && 0.0 < v.confidence <= 1.0
  {
    if |responses| == 0 then NoResponses
    else
      var w := MostCommon(responses);
      var ks := FirstSeen(responses);
      var n := Occurrences(responses, w);
      assert 1 <= n <= |responses| by {
        assert multiset(responses)[w] <= |multiset(responses)|;
      }
      Vote(w, n, Ratio(n, |responses|), Pairs(ks, CountsOf(ks, responses)), |responses|)
  }

  /** The reported counts list every distinct response once, in first-seen
      order, and add up to the number of responses. */
  lemma MajorityCounts(responses: seq<string>)
    ensures var v := SimpleMajorityVote(responses);
      && |v.Counts()| == |FirstSeen(responses)|
      && (forall i :: 0 <= i < |v.Counts()| ==>
            v.Counts()[i] == (FirstSeen(responses)[i], Occurrences(responses, FirstSeen(responses)[i])))
      && Sum(seq(|v.Counts()|, i requires 0 <= i < |v.Counts()| => v.Counts()[i].1 as int)) == |responses|
  {
    var v := SimpleMajorityVote(responses);
    CountsSumToTotal(responses);
    assert seq(|v.Counts()|, i requires 0 <= i < |v.Counts()| => v.Counts()[i].1 as int)
        == CountsOf(FirstSeen(responses), responses);
  }

  // ---------------------------------------------------------------------
  // Similar answers
  // ---------------------------------------------------------------------

  /** The value of `\d+(\.\d+)?` matched at `k`, as an exact decimal. */
  function NumberAt(s: string, k: nat): real
    requires k < |s| && IsDigit(s[k])
  {
    var d := DigitRun(s, k);
    var whole := DigitsValue(s[k..k + d]);
    var f := k + d + 1;
    if f < |s| && s[k + d] == '.' && IsDigit(s[f]) then
      var e := DigitRun(s, f);
      whole as real + DigitsValue(s[f..f + e]) as real / Pow10(e) as real
    else whole as real
  }

  /** `re.search(r"(\d+(?:\.\d+)?)", s)`, converted with `float`. */
  function FirstNumber(s: string, k: nat): (r: Option<real>)
    requires k <= |s|
    ensures r.None? <==> forall i :: k <= i < |s| ==> !IsDigit(s[i])
    decreases |s| - k
  {
    if k == |s| then None
    else if IsDigit(s[k]) then Some(NumberAt(s, k))
    else FirstNumber(s, k + 1)
  }


  function Normalize(a: string): string {
    Strip(Lower(a))
  }

  /** `_are_similar_answers`. */
  predicate Similar(a: string, b: string) {
    if |a| == 0 || |b| == 0 then false
    else SimilarNormalized(Normalize(a), Normalize(b))
  }

  /** The three tests on normalised answers: equal, one long answer inside
      the other, or leading numbers within 0.1. */
  predicate SimilarNormalized(x: string, y: string) {
    || x == y
    || (|x| > 5 && |y| > 5 && (Contains(y, x) || Contains(x, y)))
    || (FirstNumber(x, 0).Some? && FirstNumber(y, 0).Some?
        && Abs(FirstNumber(x, 0).value - FirstNumber(y, 0).value) < 0.1)
  }

  lemma SimilarNormalizedSymmetric(x: string, y: string)
    ensures SimilarNormalized(x, y) <==> SimilarNormalized(y, x)
  {
    if FirstNumber(x, 0).Some? && FirstNumber(y, 0).Some? {
      var d, e := FirstNumber(x, 0).value, FirstNumber(y, 0).value;
      assert Abs(d - e) == Abs(e - d);
    }
  }

  /** The similarity test ignores the order of its arguments, rejects the
      empty answer and accepts any other answer paired with itself. */
  lemma SimilarProperties(a: string, b: string)
    ensures Similar(a, b) <==> Similar(b, a)
    ensures |a| == 0 ==> !Similar(a, b) && !Similar(b, a)
    ensures |a| > 0 ==> Similar(a, a)
    ensures |a| > 0 && |b| > 0 && Normalize(a) == Normalize(b) ==> Similar(a, b)
  {
    SimilarNormalizedSymmetric(Normalize(a), Normalize(b));
  }

  /** Two long normalised answers where one contains the other are similar. */
  lemma SimilarByContainment(a: string, b: string)
    ensures |a| > 0 && |b| > 0 && |Normalize(a)| > 5 && |Normalize(b)| > 5 && Contains(Normalize(b), Normalize(a)) ==>
      Similar(a, b)
  {
  }

  /** Index of the first element of `keys` that `p` accepts. */
  function FirstWhere(keys: seq<string>, p: string -> bool): (r: Option<nat>)
    ensures r.Some? ==> r.value < |keys| && p(keys[r.value])
    ensures r.Some? ==> forall i :: 0 <= i < r.value ==> !p(keys[i])
    ensures r.None? ==> forall i :: 0 <= i < |keys| ==> !p(keys[i])
  {
    if |keys| == 0 then None
    else if p(keys[0]) then Some(0)
    else match FirstWhere(keys[1..], p)
      case None => None
      case Some(j) => Some(j + 1)
  }

  /** A similarity test between an answer and a group key; the vote uses
      `Similar`. */
  type Similarity = (string, string) -> bool

  /** Index of the first group key, in creation order, similar to `answer`. */
  function FirstSimilar(keys: seq<string>, answer: string, sim: Similarity): Option<nat> {
    FirstWhere(keys, k => sim(answer, k))
  }

  /** Under `Similar`, an answer that matches no group can only find its own
      key already present when it is empty. */
  lemma OwnKeyOnlyIfEmpty(keys: seq<string>, answer: string)
    requires FirstSimilar(keys, answer, Similar).None? && answer in keys
    ensures |answer| == 0
  {
    var i :| 0 <= i < |keys| && keys[i] == answer;
    assert !Similar(answer, keys[i]);
    SimilarProperties(answer, answer);
  }

  // ---------------------------------------------------------------------
  // Grouping
  // ---------------------------------------------------------------------

  /** `answer_groups`: group key to the indices of its answers. */
  type Groups = OMap<string, seq<nat>>

  /** One iteration of the grouping loop as the source writes it: an answer
      that matches no group is stored under its own key, replacing any group
      already there. */
  function GroupStepAsWritten(g: Groups, i: nat, answer: string, sim: Similarity): (g': Groups)
    requires g.Valid()
    ensures g'.Valid()
  {
    match FirstSimilar(g.keys, answer, sim)
    case Some(j) => g.Put(g.keys[j], g.values[g.keys[j]] + [i])
    case None => g.Put(answer, [i])
  }

  function GroupAnswersAsWritten(answers: seq<string>, sim: Similarity): (g: Groups)
    ensures g.Valid()
    ensures |answers| > 0 ==> |g.keys| > 0
  {
    if |answers| == 0 then Empty()
    else GroupStepAsWritten(GroupAnswersAsWritten(answers[..|answers| - 1], sim), |answers| - 1, answers[|answers| - 1], sim)
  }

  /** One iteration of the grouping loop: join the first similar group, or
      else the group keyed by the answer itself, creating it if needed. */
  function GroupStep(g: Groups, i: nat, answer: string, sim: Similarity): (g': Groups)
    requires g.Valid()
    ensures g'.Valid()
    ensures FirstSimilar(g.keys, answer, sim).Some? ==>
      var k := g.keys[FirstSimilar(g.keys, answer, sim).value];
      g'.keys == g.keys && g'.values == g.values[k := g.values[k] + [i]]
    ensures FirstSimilar(g.keys, answer, sim).None? && answer !in g.keys ==>
      g'.keys == g.keys + [answer] && g'.values == g.values[answer := [i]]
    ensures FirstSimilar(g.keys, answer, sim).None? && answer in g.keys ==>
      g'.keys == g.keys && g'.values == g.values[answer := g.values[answer] + [i]]
  {
    match FirstSimilar(g.keys, answer, sim)
    case Some(j) => g.Put(g.keys[j], g.values[g.keys[j]] + [i])
    case None =>
      if answer in g.values then
        g.Put(answer, g.values[answer] + [i])
      else g.Put(answer, [i])
  }

  function GroupAnswers(answers: seq<string>, sim: Similarity): (g: Groups)
    ensures g.Valid()
    ensures |answers| > 0 ==> |g.keys| > 0
  {
    if |answers| == 0 then Empty()
    else GroupStep(GroupAnswers(answers[..|answers| - 1], sim), |answers| - 1, answers[|answers| - 1], sim)
  }

  /** All indices of the groups, group after group in key order. */
  function Flatten(keys: seq<string>, values: map<string, seq<nat>>): seq<nat>
    requires forall k :: k in keys ==> k in values
  {
    if |keys| == 0 then [] else values[keys[0]] + Flatten(keys[1..], values)
  }

  /** The group sizes in key order: `vote_counts`. */
  function Sizes(g: Groups): (cs: seq<int>)
    requires g.Valid()
    ensures |cs| == |g.keys| && forall i :: 0 <= i < |cs| ==> cs[i] == |g.values[g.keys[i]]|
  {
    SizesOf(g.keys, g.values)
  }

  function SizesOf(keys: seq<string>, values: map<string, seq<nat>>): (cs: seq<int>)
    requires forall k :: k in keys ==> k in values
    ensures |cs| == |keys| && forall i :: 0 <= i < |cs| ==> cs[i] == |values[keys[i]]|
  {
    if |keys| == 0 then [] else [|values[keys[0]]|] + SizesOf(keys[1..], values)
  }

  function Range(n: nat): (r: seq<nat>)
    ensures |r| == n && forall i :: 0 <= i < n ==> r[i] == i
  {
    seq(n, i requires 0 <= i => i as nat)
  }

  lemma {:induction false} FlattenAppend(keys: seq<string>, values: map<string, seq<nat>>, k: string, v: seq<nat>)
    requires forall x :: x in keys ==> x in values
    requires k !in keys
    ensures Flatten(keys + [k], values[k := v]) == Flatten(keys, values) + v
  {
    if |keys| == 0 {
      assert Flatten([k], values[k := v]) == v + Flatten([], values[k := v]);
    } else {
      assert (keys + [k])[1..] == keys[1..] + [k];
      FlattenAppend(keys[1..], values, k, v);
    }
  }

  lemma {:induction false} FlattenExtend(keys: seq<string>, values: map<string, seq<nat>>, k: string, i: nat)
    requires forall x :: x in keys ==> x in values
    requires Distinct(keys) && k in keys
    ensures multiset(Flatten(keys, values[k := values[k] + [i]])) == multiset(Flatten(keys, values)) + multiset{i}
  {
    var values' := values[k := values[k] + [i]];
    if keys[0] == k {
      assert k !in keys[1..];
      FlattenSame(keys[1..], values, values');
    } else {
      FlattenExtend(keys[1..], values, k, i);
    }
  }

  lemma {:induction false} FlattenSame(keys: seq<string>, a: map<string, seq<nat>>, b: map<string, seq<nat>>)
    requires forall x :: x in keys ==> x in a && x in b && a[x] == b[x]
    ensures Flatten(keys, a) == Flatten(keys, b)
  {
    if |keys| > 0 {
      FlattenSame(keys[1..], a, b);
    }
  }

  lemma {:induction false} FlattenLength(keys: seq<string>, values: map<string, seq<nat>>)
    requires forall x :: x in keys ==> x in values
    ensures |Flatten(keys, values)| == Sum(SizesOf(keys, values))
  {
    if |keys| > 0 {
      FlattenLength(keys[1..], values);
    }
  }

  /** One grouping step adds its index to exactly one group. */
  lemma GroupStepAddsIndex(g: Groups, i: nat, a: string, sim: Similarity)
    requires g.Valid()
    ensures var g' := GroupStep(g, i, a, sim);
      multiset(Flatten(g'.keys, g'.values)) == multiset(Flatten(g.keys, g.values)) + multiset{i}
  {
    match FirstSimilar(g.keys, a, sim)
    case Some(j) =>
      FlattenExtend(g.keys, g.values, g.keys[j], i);
    case None =>
      if a in g.keys {
        FlattenExtend(g.keys, g.values, a, i);
      } else {
        FlattenAppend(g.keys, g.values, a, [i]);
      }
  }

  /** The groups partition the answer indices: every index `0..n-1` lies in
      exactly one group, once. */
  lemma {:induction false} GroupsPartition(answers: seq<string>, sim: Similarity)
    ensures var g := GroupAnswers(answers, sim);
      multiset(Flatten(g.keys, g.values)) == multiset(Range(|answers|))
  {
    var n := |answers|;
    if n > 0 {
      var g0 := GroupAnswers(answers[..n - 1], sim);
      GroupsPartition(answers[..n - 1], sim);
      assert Range(n) == Range(n - 1) + [n - 1];
      assert GroupAnswers(answers, sim) == GroupStep(g0, n - 1, answers[n - 1], sim);
      GroupStepAddsIndex(g0, n - 1, answers[n - 1], sim);
    }
  }

  /** Hence the vote counts add up to the number of answers. */
  lemma GroupSizesSum(answers: seq<string>, sim: Similarity)
    ensures Sum(Sizes(GroupAnswers(answers, sim))) == |answers|
  {
    var g := GroupAnswers(answers, sim);
    var f := Flatten(g.keys, g.values);
    GroupsPartition(answers, sim);
    FlattenLength(g.keys, g.values);
    assert |f| == |multiset(f)| == |multiset(Range(|answers|))| == |answers|;
  }

  function Two(): seq<string> { ["", ""] }

  /** A single answer makes a single group holding index 0. */
  lemma GroupOne(answers: seq<string>, sim: Similarity)
    requires |answers| == 1
    ensures GroupAnswers(answers, sim) == OMap([answers[0]], map[answers[0] := [0]])
    ensures GroupAnswersAsWritten(answers, sim) == OMap([answers[0]], map[answers[0] := [0]])
  {
    assert answers[..0] == [];
  }

  /** The empty answer is similar to no group key, not even its own. */
  lemma EmptyMatchesNothing(keys: seq<string>)
    ensures FirstSimilar(keys, "", Similar) == None
  {
    forall i | 0 <= i < |keys| ensures !Similar("", keys[i]) {
    }
  }

  /** As written, two empty answers end in one group holding only the second
      index: the first index is dropped and the counts add up to 1, not 2. */
  lemma EmptyAnswersOverwrite()
    ensures GroupAnswersAsWritten(Two(), Similar).keys == [""]
    ensures GroupAnswersAsWritten(Two(), Similar).values == map["" := [1]]
    ensures Sum(Sizes(GroupAnswersAsWritten(Two(), Similar))) == 1 != |Two()|
  {
    var g1 := GroupAnswersAsWritten(Two()[..1], Similar);
    GroupOne(Two()[..1], Similar);
    EmptyMatchesNothing(g1.keys);
    var g := GroupAnswersAsWritten(Two(), Similar);
    assert g == GroupStepAsWritten(g1, 1, "", Similar);
    assert g.keys == [""] && g.values == map["" := [1]];
    assert Sizes(g) == [1];
  }

  /** With the fix, the same input keeps both indices in one group. */
  lemma EmptyAnswersKept()
    ensures GroupAnswers(Two(), Similar).values == map["" := [0, 1]]
  {
    var g1 := GroupAnswers(Two()[..1], Similar);
    GroupOne(Two()[..1], Similar);
    EmptyMatchesNothing(g1.keys);
    assert GroupAnswers(Two(), Similar) == GroupStep(g1, 1, "", Similar);
    assert g1.values[""] + [1] == [0, 1];
  }

  // ---------------------------------------------------------------------
  // Semantic vote
  // ---------------------------------------------------------------------

  datatype SemanticVote =
    | NoAnswers
    | Grouped(winner: string, winnerCount: nat, confidence: real, groups: Groups, totalResponses: nat)

  function Extract(responses: seq<string>, extract: Extractor): (answers: seq<string>)
    ensures |answers| == |responses| && forall i :: 0 <= i < |responses| ==> answers[i] == extract(responses[i])
  {
    seq(|responses|, i requires 0 <= i < |responses| => extract(responses[i]))
  }

  /** The first-created group of maximal size:
      `max(vote_counts, key=vote_counts.get)`. */
  function LargestGroup(g: Groups): (k: string)
    requires g.Valid() && |g.keys| > 0
    ensures k in g.keys
    ensures forall k' :: k' in g.keys ==> |g.values[k']| <= |g.values[k]|
    ensures forall h :: 0 <= h < |g.keys| && g.keys[h] == k ==>
      forall i :: 0 <= i < h ==> |g.values[g.keys[i]]| < |g.values[k]|
  {
    var j := ArgMaxFirst(Sizes(g));
    LargestGroupFacts(g, j);
    g.keys[j]
  }

  lemma LargestGroupFacts(g: Groups, j: nat)
    requires g.Valid() && |g.keys| > 0 && j == ArgMaxFirst(Sizes(g))
    ensures forall k' :: k' in g.keys ==> |g.values[k']| <= |g.values[g.keys[j]]|
    ensures forall h :: 0 <= h < |g.keys| && g.keys[h] == g.keys[j] ==>
      forall i :: 0 <= i < h ==> |g.values[g.keys[i]]| < |g.values[g.keys[j]]|
  {
    var sizes := Sizes(g);
    forall k' | k' in g.keys ensures |g.values[k']| <= |g.values[g.keys[j]]| {
      var i :| 0 <= i < |g.keys| && g.keys[i] == k';
      assert sizes[i] <= sizes[j];
    }
    forall h | 0 <= h < |g.keys| && g.keys[h] == g.keys[j]
      ensures forall i :: 0 <= i < h ==> |g.values[g.keys[i]]| < |g.values[g.keys[j]]|
    {
      assert h == j;
      forall i | 0 <= i < h ensures |g.values[g.keys[i]]| < |g.values[g.keys[j]]| {
        assert sizes[i] < sizes[j];
      }
    }
  }

  /** A group's size lies between 1 and the number of answers. */
  lemma GroupShare(answers: seq<string>, sim: Similarity, k: string)
    requires k in GroupAnswers(answers, sim).keys
    ensures 1 <= |GroupAnswers(answers, sim).values[k]| <= |answers|
  {
    var g := GroupAnswers(answers, sim);
    var sizes := Sizes(g);
    var j :| 0 <= j < |g.keys| && g.keys[j] == k;
    GroupSizesSum(answers, sim);
    GroupSizesPositive(answers, sim);
    forall i | 0 <= i < |sizes|
      ensures sizes[i] >= 1
    {
      assert g.keys[i] in g.keys;
    }
    SumAtLeast(sizes, j);
  }

  /** `semantic_similarity_vote`: the winner is the first-created group of
      maximal size, and the confidence its share of the responses. The
      fallback to the majority vote when no group exists cannot be reached:
      one response already makes a group. */
  function SemanticSimilarityVote(responses: seq<string>, extract: Extractor): (v: SemanticVote)
    ensures v.NoAnswers? <==> |responses| == 0
    ensures v.Grouped? ==>
      && v.groups == GroupAnswers(Extract(responses, extract), Similar)
      && v.totalResponses == |responses|
      && v.winner == LargestGroup(v.groups)
      && v.winnerCount == |v.groups.values[v.winner]|
      && v.confidence == v.winnerCount as real / |responses| as real
      && 0.0 < v.confidence <= 1.0
  {
    if |responses| == 0 then NoAnswers
    else
      var answers := Extract(responses, extract);
      var g := GroupAnswers(answers, Similar);
      var w := LargestGroup(g);
      var n := |g.values[w]|;
      GroupShare(answers, Similar, w);
      Grouped(w, n, Ratio(n, |responses|), g, |responses|)
  }

  /** `semantic_similarity_vote` as the source writes it, over the grouping
      whose repeated unmatched answer replaces its group. */
  function SemanticSimilarityVoteAsWritten(responses: seq<string>, extract: Extractor): (v: SemanticVote)
    ensures v.NoAnswers? <==> |responses| == 0
    ensures v.Grouped? ==>
      && v.groups == GroupAnswersAsWritten(Extract(responses, extract), Similar)
      && v.totalResponses == |responses|
      && v.winner == LargestGroup(v.groups)
      && v.winnerCount == |v.groups.values[v.winner]|
      && v.confidence == v.winnerCount as real / |responses| as real
  {
    if |responses| == 0 then NoAnswers
    else
      var g := GroupAnswersAsWritten(Extract(responses, extract), Similar);
      var w := LargestGroup(g);
      var n := |g.values[w]|;
      Grouped(w, n, n as real / |responses| as real, g, |responses|)
  }

  /** Two responses whose extracted answers are both empty: as written the
      vote counts one of them and has confidence 0.5; corrected it counts
      both and has confidence 1. */
  lemma EmptyAnswersHalveConfidence(responses: seq<string>, extract: Extractor)
    requires |responses| == 2 && extract(responses[0]) == "" && extract(responses[1]) == ""
    ensures var v := SemanticSimilarityVoteAsWritten(responses, extract);
      v.Grouped? && v.winner == "" && v.winnerCount == 1 && v.confidence == 0.5
    ensures var v := SemanticSimilarityVote(responses, extract);
      v.Grouped? && v.winner == "" && v.winnerCount == 2 && v.confidence == 1.0
  {
    EmptyVoteAsWritten(responses, extract);
    EmptyVoteCorrected(responses, extract);
  }

  lemma EmptyVoteAsWritten(responses: seq<string>, extract: Extractor)
    requires |responses| == 2 && extract(responses[0]) == "" && extract(responses[1]) == ""
    ensures var v := SemanticSimilarityVoteAsWritten(responses, extract);
      v.Grouped? && v.winner == "" && v.winnerCount == 1 && v.confidence == 0.5
  {
    ExtractTwoEmpty(responses, extract);
    var g := GroupAnswersAsWritten(Two(), Similar);
    EmptyAnswersOverwrite();
    SingleGroupWins(g);
    var v := SemanticSimilarityVoteAsWritten(responses, extract);
    assert v.groups == g && v.winner == "";
    assert v.winnerCount == 1;
  }

  lemma ExtractTwoEmpty(responses: seq<string>, extract: Extractor)
    requires |responses| == 2 && extract(responses[0]) == "" && extract(responses[1]) == ""
    ensures Extract(responses, extract) == Two()
  {
  }

  lemma EmptyVoteCorrected(responses: seq<string>, extract: Extractor)
    requires |responses| == 2 && extract(responses[0]) == "" && extract(responses[1]) == ""
    ensures var v := SemanticSimilarityVote(responses, extract);
      v.Grouped? && v.winner == "" && v.winnerCount == 2 && v.confidence == 1.0
  {
    ExtractTwoEmpty(responses, extract);
    var g := GroupAnswers(Two(), Similar);
    EmptyAnswersKept();
    EmptyGroupKeys();
    SingleGroupWins(g);
    var v := SemanticSimilarityVote(responses, extract);
    assert v.groups == g && v.winner == "";
    assert v.winnerCount == 2;
  }

  lemma EmptyGroupKeys()
    ensures GroupAnswers(Two(), Similar).keys == [""]
  {
    var g := GroupAnswers(Two(), Similar);
    EmptyAnswersKept();
    assert g.values.Keys == {""};
    assert forall k :: k in g.keys ==> k == "";
    assert |g.keys| == 1;
  }

  /** With a single group, that group wins. */
  lemma SingleGroupWins(g: Groups)
    requires g.Valid() && |g.keys| == 1
    ensures LargestGroup(g) == g.keys[0]
  {
  }

  predicate NoEmptyGroup(g: Groups)
    requires g.Valid()
  {
    forall k :: k in g.keys ==> |g.values[k]| >= 1
  }

  /** Every group holds at least the answer that created it. */
  lemma {:induction false} GroupSizesPositive(answers: seq<string>, sim: Similarity)
    ensures NoEmptyGroup(GroupAnswers(answers, sim))
  {
    var n := |answers|;
    if n > 0 {
      var g0 := GroupAnswers(answers[..n - 1], sim);
      GroupSizesPositive(answers[..n - 1], sim);
      assert GroupAnswers(answers, sim) == GroupStep(g0, n - 1, answers[n - 1], sim);
    }
  }

  // ---------------------------------------------------------------------
  // Consistency
  // ---------------------------------------------------------------------

  datatype ConsistencyReport =
    | TooFew(score: real, analysis: string)
    | Measured(score: real, agreement: real, unique: nat, total: nat, answers: seq<string>)

  const TooFewAnalysis: string := "Cannot measure consistency with < 2 responses"

  /** The number of distinct answers is the size of their set, and at most
      the number of answers. */
  lemma UniqueCount(xs: seq<string>)
    requires |xs| > 0
    ensures |FirstSeen(xs)| == |set a | a in xs|
    ensures 1 <= |FirstSeen(xs)| <= |xs|
  {
    var ks := FirstSeen(xs);
    DistinctCard(ks);
    assert (set a | a in xs) == (set a | a in ks);
    assert xs[0] in ks;
  }

  /** The count of the most common answer is between 1 and the number of
      answers, and equals it exactly when all answers agree. */
  lemma MostCommonCount(xs: seq<string>)
    requires |xs| > 0
    ensures 1 <= Occurrences(xs, MostCommon(xs)) <= |xs|
    ensures Occurrences(xs, MostCommon(xs)) == |xs| <==> |FirstSeen(xs)| == 1
  {
    var ks := FirstSeen(xs);
    var cs := CountsOf(ks, xs);
    var j := ArgMaxFirst(cs);
    assert MostCommon(xs) == ks[j];
    CountsSumToTotal(xs);
    CountsPositive(xs);
    SumAtLeast(cs, j);
    if |ks| == 1 {
      assert cs == [cs[0]];
    }
  }

  /** `1 - (u - 1) / n` for `1 <= u <= n` lies in `[1/n, 1]` and is 1 only
      for `u == 1`. */
  lemma ScoreBounds(u: nat, n: nat)
    requires 1 <= u <= n
    ensures 1.0 / n as real <= 1.0 - (u - 1) as real / n as real <= 1.0
    ensures 1.0 - (u - 1) as real / n as real == 1.0 <==> u == 1
  {
    assert (u - 1) as real / n as real <= (n - 1) as real / n as real;
    assert (n - 1) as real / n as real == 1.0 - 1.0 / n as real;
  }

  /** `1 - (u - 1) / n`, the consistency score of `u` distinct answers out
      of `n`. */
  function Score(u: nat, n: nat): (s: real)
    requires 1 <= u <= n
    ensures s == 1.0 - (u - 1) as real / n as real
    ensures 1.0 / n as real <= s <= 1.0
    ensures s == 1.0 <==> u == 1
  {
    ScoreBounds(u, n);
    1.0 - (u - 1) as real / n as real
  }

  /** The facts the consistency measures rest on. */
  lemma ConsistencyFacts(answers: seq<string>)
    requires |answers| >= 2
    ensures var u, n := |FirstSeen(answers)|, |answers|;
      && u == |set a | a in answers|
      && 1 <= u <= n
      && 1 <= Occurrences(answers, MostCommon(answers)) <= n
  {
    UniqueCount(answers);
    MostCommonCount(answers);
  }

  /** `analyze_consistency`: `1 - (unique - 1) / n` and the share of the most
      common answer. */
  function AnalyzeConsistency(responses: seq<string>, extract: Extractor): (c: ConsistencyReport)
    ensures |responses| < 2 <==> c.TooFew?
    ensures c.TooFew? ==> c.score == 1.0 && c.analysis == TooFewAnalysis
    ensures c.Measured? ==>
      && c.answers == Extract(responses, extract)
      && c.total == |responses|
      && c.unique == |set a | a in c.answers|
      && 1 <= c.unique <= c.total
      && c.score == Score(c.unique, c.total)
      && 1.0 / c.total as real <= c.score <= 1.0
      && c.agreement == Ratio(Occurrences(c.answers, MostCommon(c.answers)), c.total)
      && 0.0 < c.agreement <= 1.0
  {
    if |responses| < 2 then TooFew(1.0, TooFewAnalysis)
    else
      var answers := Extract(responses, extract);
      var n := |answers|;
      var u := |FirstSeen(answers)|;
      ConsistencyFacts(answers);
      Measured(Score(u, n), Ratio(Occurrences(answers, MostCommon(answers)), n), u, n, answers)
  }

  /** A perfect consistency score, full agreement and a single distinct
      answer are the same thing. */
  lemma ConsistencyPerfectIff(responses: seq<string>, extract: Extractor)
    requires |responses| >= 2
    ensures var c := AnalyzeConsistency(responses, extract);
      && (c.score == 1.0 <==> c.unique == 1)
      && (c.agreement == 1.0 <==> c.unique == 1)
  {
    var answers := Extract(responses, extract);
    UniqueCount(answers);
    MostCommonCount(answers);
    ScoreBounds(|FirstSeen(answers)|, |answers|);
  }
}
