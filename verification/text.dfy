/** Python string primitives the heuristics are built from: `isspace`, `lower`,
    `upper`, `strip`, `split(sep)`, `split()`, the `in` substring test,
    `count`, `startswith` and `str(n)` for natural numbers.
    Strings are `seq<char>` over Unicode scalar values. */
module Text {
  import opened Selection

  /** Python's `str.isspace()` set, which is also what `split()`, `strip()`
      and the regular-expression class `\s` use on `str` values. */
  predicate IsSpace(c: char) {
    || c == ' ' || c == '\t' || c == '\n' || c == '\r' || c == '\U{000B}' || c == '\U{000C}'
    || ('\U{001C}' <= c <= '\U{001F}') || c == '\U{0085}' || c == '\U{00A0}' || c == '\U{1680}'
    || ('\U{2000}' <= c <= '\U{200A}') || c == '\U{2028}' || c == '\U{2029}' || c == '\U{202F}'
    || c == '\U{205F}' || c == '\U{3000}'
  }

  predicate IsDigit(c: char) {
    '0' <= c <= '9'
  }

  function DigitValue(c: char): (d: nat)
    requires IsDigit(c)
    ensures d < 10
  {
    (c as int) - ('0' as int)
  }

  /** `lower()` restricted to ASCII letters. */
  function LowerChar(c: char): (r: char)
    ensures 'A' <= c <= 'Z' ==> 'a' <= r <= 'z'
    ensures !('A' <= c <= 'Z') ==> r == c
  {
    if 'A' <= c <= 'Z' then (c as int + 32) as char else c
  }

  function UpperChar(c: char): (r: char)
    ensures 'a' <= c <= 'z' ==> 'A' <= r <= 'Z'
    ensures !('a' <= c <= 'z') ==> r == c
  {
    if 'a' <= c <= 'z' then (c as int - 32) as char else c
  }

  function Lower(s: string): (r: string)
    ensures |r| == |s|
    ensures forall i :: 0 <= i < |s| ==> r[i] == LowerChar(s[i])
  {
    seq(|s|, i requires 0 <= i < |s| => LowerChar(s[i]))
  }

  function Upper(s: string): (r: string)
    ensures |r| == |s|
    ensures forall i :: 0 <= i < |s| ==> r[i] == UpperChar(s[i])
  {
    seq(|s|, i requires 0 <= i < |s| => UpperChar(s[i]))
  }

  predicate StartsWith(s: string, prefix: string) {
    |prefix| <= |s| && s[..|prefix|] == prefix
  }

  /** Python's `pat in text`. */
  predicate Contains(text: string, pat: string)
    decreases |text|
  {
    StartsWith(text, pat) || (|text| > 0 && Contains(text[1..], pat))
  }

  lemma ContainsAt(text: string, pat: string, i: nat)
    requires i + |pat| <= |text| && text[i..i + |pat|] == pat
    ensures Contains(text, pat)
    decreases i
  {
    if i > 0 {
      assert text[1..][i - 1..i - 1 + |pat|] == text[i..i + |pat|];
      ContainsAt(text[1..], pat, i - 1);
    }
  }

  lemma {:induction false} ContainsWitness(text: string, pat: string) returns (i: nat)
    requires Contains(text, pat)
    ensures i + |pat| <= |text| && text[i..i + |pat|] == pat
    decreases |text|
  {
    if StartsWith(text, pat) {
      i := 0;
    } else {
      var j := ContainsWitness(text[1..], pat);
      assert text[1..][j..j + |pat|] == text[j + 1..j + 1 + |pat|];
      i := j + 1;
    }
  }

  /** A pattern whose first character never occurs in the text is absent. */
  lemma {:induction false} AbsentFirstChar(text: string, pat: string)
    requires |pat| > 0 && forall i :: 0 <= i < |text| ==> text[i] != pat[0]
    ensures !Contains(text, pat)
    decreases |text|
  {
    if |text| > 0 {
      AbsentFirstChar(text[1..], pat);
      if |pat| <= |text| {
        assert text[..|pat|][0] != pat[0];
      }
    }
  }

  /** Every string contains itself and the empty string. */
  lemma ContainsSelf(s: string)
    ensures Contains(s, s) && Contains(s, "")
  {
    assert s[..|s|] == s;
    assert s[..0] == "";
  }

  /** Containment is transitive: a piece of a piece is a piece. */
  lemma ContainsTrans(a: string, b: string, c: string)
    requires Contains(a, b) && Contains(b, c)
    ensures Contains(a, c)
  {
    var i := ContainsWitness(a, b);
    var j := ContainsWitness(b, c);
    var x, y := a[i + j..i + j + |c|], b[j..j + |c|];
    forall k | 0 <= k < |c| ensures x[k] == y[k] {
      assert a[i..i + |b|][j + k] == a[i + j + k];
    }
    assert x == y;
    ContainsAt(a, c, i + j);
  }

  /** The keywords of `keywords` that occur in `text`, in table order: the
      shape of `[k for k in keywords if k in text]`. */
  function Present(keywords: seq<string>, text: string): (r: seq<string>)
    ensures |r| <= |keywords|
    ensures forall k :: k in r <==> k in keywords && Contains(text, k)
  {
    if |keywords| == 0 then []
    else if Contains(text, keywords[0]) then [keywords[0]] + Present(keywords[1..], text)
    else Present(keywords[1..], text)
  }

  /** The keywords found are listed once per table entry that occurs, in
      table order. */
  lemma {:induction false} PresentInOrder(keywords: seq<string>, text: string)
    ensures SelectsInOrder(Present(keywords, text), keywords, InText(text), Identity())
  {
    if |keywords| > 0 {
      PresentInOrder(keywords[1..], text);
      SelectsCons(Present(keywords[1..], text), keywords, InText(text), Identity());
    }
  }

  /** The test `k in text`, as a value. */
  function InText(text: string): string -> bool {
    k => Contains(text, k)
  }

  /** `sum(1 for k in keywords if k in text)`. */
  function CountPresent(keywords: seq<string>, text: string): nat {
    |Present(keywords, text)|
  }

  /** `any(k in text for k in keywords)`. */
  predicate AnyPresent(keywords: seq<string>, text: string) {
    exists k :: k in keywords && Contains(text, k)
  }

  lemma CountPresentBounds(keywords: seq<string>, text: string)
    ensures CountPresent(keywords, text) <= |keywords|
    ensures CountPresent(keywords, text) > 0 <==> AnyPresent(keywords, text)
  {
    if CountPresent(keywords, text) > 0 {
      var k := Present(keywords, text)[0];
      assert k in Present(keywords, text);
    }
    if AnyPresent(keywords, text) {
      var k :| k in keywords && Contains(text, k);
      assert k in Present(keywords, text);
    }
  }

  /** Every keyword present gives the full count. */
  lemma CountPresentAll(keywords: seq<string>, text: string)
    requires forall k :: k in keywords ==> Contains(text, k)
    ensures CountPresent(keywords, text) == |keywords|
  {
    if |keywords| > 0 {
      CountPresentAll(keywords[1..], text);
    }
  }

  /** Without repeated keywords, every keyword is present exactly when the
      count is the full list. */
  lemma AllPresentIff(kws: seq<string>, t: string)
    requires forall i, j :: 0 <= i < j < |kws| ==> kws[i] != kws[j]
    ensures CountPresent(kws, t) == |kws| <==> forall k :: k in kws ==> Contains(t, k)
  {
    if forall k :: k in kws ==> Contains(t, k) {
      CountPresentAll(kws, t);
    } else {
      var k :| k in kws && !Contains(t, k);
      PresentMissing(kws, t, k);
    }
  }

  lemma {:induction false} PresentMissing(kws: seq<string>, t: string, k: string)
    requires k in kws && !Contains(t, k)
    ensures CountPresent(kws, t) < |kws|
  {
    if kws[0] != k {
      PresentMissing(kws[1..], t, k);
    } else {
      assert |Present(kws[1..], t)| <= |kws[1..]|;
    }
  }

  /** A piece of either half is a piece of the concatenation. */
  lemma ContainsAppend(a: string, b: string, k: string)
    ensures Contains(a, k) ==> Contains(a + b, k)
    ensures Contains(b, k) ==> Contains(a + b, k)
  {
    if Contains(a, k) {
      var i := ContainsWitness(a, k);
      assert (a + b)[i..i + |k|] == a[i..i + |k|];
      ContainsAt(a + b, k, i);
    }
    if Contains(b, k) {
      var i := ContainsWitness(b, k);
      assert (a + b)[|a| + i..|a| + i + |k|] == b[i..i + |k|];
      ContainsAt(a + b, k, |a| + i);
    }
  }

  lemma LowerAppend(a: string, b: string)
    ensures Lower(a + b) == Lower(a) + Lower(b)
  {
  }

  /** A text holding every keyword another holds counts at least as many. */
  lemma {:induction false} CountPresentMonotone(keywords: seq<string>, a: string, b: string)
    requires forall k :: k in keywords && Contains(a, k) ==> Contains(b, k)
    ensures CountPresent(keywords, a) <= CountPresent(keywords, b)
  {
    if |keywords| > 0 {
      assert forall k :: k in keywords[1..] ==> k in keywords;
      CountPresentMonotone(keywords[1..], a, b);
    }
  }

  /** Joining more text on either side never loses a keyword. */
  lemma CountPresentGrows(keywords: seq<string>, a: string, b: string)
    ensures CountPresent(keywords, a) <= CountPresent(keywords, a + b)
    ensures CountPresent(keywords, b) <= CountPresent(keywords, a + b)
  {
    forall k | Contains(a, k) || Contains(b, k) ensures Contains(a + b, k) {
      ContainsAppend(a, b, k);
    }
    CountPresentMonotone(keywords, a, a + b);
    CountPresentMonotone(keywords, b, a + b);
  }

  /** Length of the leading run of non-space characters. */
  function TokenLength(s: string): (n: nat)
    ensures n <= |s|
    ensures forall i :: 0 <= i < n ==> !IsSpace(s[i])
    ensures n < |s| ==> IsSpace(s[n])
  {
    if |s| == 0 || IsSpace(s[0]) then 0 else 1 + TokenLength(s[1..])
  }

  /** Python's `s.split()`: the maximal runs of non-whitespace characters. */
  function Words(s: string): (r: seq<string>)
    ensures forall w :: w in r ==> |w| > 0 && forall i :: 0 <= i < |w| ==> !IsSpace(w[i])
    decreases |s|
  {
    if |s| == 0 then []
    else if IsSpace(s[0]) then Words(s[1..])
    else
      var n := TokenLength(s);
      [s[..n]] + Words(s[n..])
  }

  /** `len(s.split())`. */
  function WordCount(s: string): nat {
    |Words(s)|
  }

  /** `set(text.lower().split())`. */
  function WordSet(text: string): set<string> {
    set w | w in Words(Lower(text))
  }

  /** The number of positions where a word starts: a non-space character at
      the start of the string (when `afterSpace`) or right after a space. */
  function CountWordStarts(s: string, afterSpace: bool): nat {
    if |s| == 0 then 0
    else (if afterSpace && !IsSpace(s[0]) then 1 else 0) + CountWordStarts(s[1..], IsSpace(s[0]))
  }

  /** Inside a token no word starts. */
  lemma {:induction false} WordStartsSkipToken(s: string, n: nat)
    requires n <= |s| && forall i :: 0 <= i < n ==> !IsSpace(s[i])
    ensures CountWordStarts(s, false) == CountWordStarts(s[n..], false)
  {
    if n > 0 {
      WordStartsSkipToken(s[1..], n - 1);
      assert s[1..][n - 1..] == s[n..];
    }
  }

  /** `split()` yields one word per word start. */
  lemma {:induction false} WordCountIsStarts(s: string)
    ensures WordCount(s) == CountWordStarts(s, true)
    decreases |s|
  {
    if |s| > 0 {
      if IsSpace(s[0]) {
        WordCountIsStarts(s[1..]);
      } else {
        var n := TokenLength(s);
        WordCountIsStarts(s[n..]);
        WordStartsSkipToken(s[1..], n - 1);
        assert s[1..][n - 1..] == s[n..];
        if n < |s| {
          assert CountWordStarts(s[n..], false) == CountWordStarts(s[n..][1..], true);
          assert CountWordStarts(s[n..], true) == CountWordStarts(s[n..][1..], true);
        }
      }
    }
  }

  /** A string with no whitespace at all is one word (or none when empty). */
  lemma WordsOfToken(s: string)
    requires forall i :: 0 <= i < |s| ==> !IsSpace(s[i])
    ensures Words(s) == if |s| == 0 then [] else [s]
  {
    if |s| > 0 {
      TokenLengthOfToken(s);
      var n := TokenLength(s);
      assert !IsSpace(s[0]);
      assert Words(s) == [s[..n]] + Words(s[n..]);
      assert s[n..] == [] && s[..n] == s;
    }
  }

  lemma TokenLengthOfToken(s: string)
    requires forall i :: 0 <= i < |s| ==> !IsSpace(s[i])
    ensures TokenLength(s) == |s|
  {
    if |s| > 0 {
      TokenLengthOfToken(s[1..]);
    }
  }

  /** Python's `s.split(sep)` for a one-character separator. */
  function Split(s: string, sep: char): (r: seq<string>)
    ensures |r| >= 1
    ensures forall p :: p in r ==> sep !in p
    decreases |s|
  {
    if |s| == 0 then [""]
    else if s[0] == sep then [""] + Split(s[1..], sep)
    else
      var rest := Split(s[1..], sep);
      [[s[0]] + rest[0]] + rest[1..]
  }

  /** The first piece of a split is everything before the first separator. */
  lemma {:induction false} SplitFirst(p: string, sep: char, rest: string)
    requires sep !in p
    ensures Split(p + [sep] + rest, sep)[0] == p
    decreases |p|
  {
    if |p| == 0 {
      assert p + [sep] + rest == [sep] + rest;
    } else {
      assert (p + [sep] + rest)[1..] == p[1..] + [sep] + rest;
      SplitFirst(p[1..], sep, rest);
    }
  }

  /** `sep.join(pieces)`. */
  function Join(pieces: seq<string>, sep: string): string {
    if |pieces| == 0 then ""
    else if |pieces| == 1 then pieces[0]
    else pieces[0] + sep + Join(pieces[1..], sep)
  }

  /** Splitting and re-joining on the same separator gives the string back. */
  lemma {:induction false} SplitJoin(s: string, sep: char)
    ensures Join(Split(s, sep), [sep]) == s
    decreases |s|
  {
    if |s| > 0 {
      var rest := Split(s[1..], sep);
      SplitJoin(s[1..], sep);
      SplitCons(s[0], s[1..], sep);
      assert [s[0]] + s[1..] == s;
      if s[0] == sep {
        JoinCons("", rest, [sep]);
      } else {
        JoinHead([s[0]], rest, [sep]);
      }
    }
  }

  /** Joining after a new first piece puts it and the separator in front. */
  lemma JoinCons(p: string, rest: seq<string>, sep: string)
    requires |rest| > 0
    ensures Join([p] + rest, sep) == p + sep + Join(rest, sep)
  {
    assert ([p] + rest)[1..] == rest;
  }

  /** Joining after extending the first piece at its front. */
  lemma JoinHead(c: string, L: seq<string>, sep: string)
    requires |L| > 0
    ensures Join([c + L[0]] + L[1..], sep) == c + Join(L, sep)
  {
    var M := [c + L[0]] + L[1..];
    assert M[1..] == L[1..];
    if |L| > 1 {
      assert (c + L[0]) + sep + Join(L[1..], sep) == c + (L[0] + sep + Join(L[1..], sep));
    }
  }

  /** The number of occurrences of `c` in `s`. */
  function CountChar(s: string, c: char): nat {
    if |s| == 0 then 0 else (if s[0] == c then 1 else 0) + CountChar(s[1..], c)
  }

  /** There is one more piece than there are separators. */
  lemma {:induction false} SplitLength(s: string, sep: char)
    ensures |Split(s, sep)| == CountChar(s, sep) + 1
    decreases |s|
  {
    if |s| > 0 {
      SplitLength(s[1..], sep);
    }
  }

  function TrimLeft(s: string): (r: string)
    ensures |r| <= |s| && r == s[|s| - |r|..]
    ensures |r| > 0 ==> !IsSpace(r[0])
    ensures forall i :: 0 <= i < |s| - |r| ==> IsSpace(s[i])
  {
    if |s| > 0 && IsSpace(s[0]) then TrimLeft(s[1..]) else s
  }

  function TrimRight(s: string): (r: string)
    ensures |r| <= |s| && r == s[..|r|]
    ensures |r| > 0 ==> !IsSpace(r[|r| - 1])
    ensures forall i :: |r| <= i < |s| ==> IsSpace(s[i])
  {
    if |s| > 0 && IsSpace(s[|s| - 1]) then TrimRight(s[..|s| - 1]) else s
  }

  /** Python's `s.strip()`. */
  function Strip(s: string): (r: string)
    ensures |r| <= |s|
    ensures |r| > 0 ==> !IsSpace(r[0]) && !IsSpace(r[|r| - 1])
  {
    TrimRight(TrimLeft(s))
  }

  /** `s.strip()` is empty exactly when `s` is all whitespace. */
  lemma StripEmpty(s: string)
    ensures |Strip(s)| == 0 <==> forall i :: 0 <= i < |s| ==> IsSpace(s[i])
  {
    var l := TrimLeft(s);
    if |Strip(s)| != 0 {
      var r := Strip(s);
      assert r[0] == l[0];
      assert l[0] == s[|s| - |l|];
    }
  }

  /** Splitting a concatenation: the last piece of `a` and the first piece
      of `b` fuse, the other pieces are kept. */
  lemma {:induction false} SplitAppend(a: string, b: string, sep: char)
    ensures Split(a + b, sep) == Fuse(Split(a, sep), Split(b, sep))
    decreases |a|
  {
    var B := Split(b, sep);
    if |a| == 0 {
      assert a + b == b;
      assert "" + B[0] == B[0];
      assert Fuse([""], B) == [B[0]] + B[1..] == B;
    } else {
      assert (a + b)[1..] == a[1..] + b && (a + b)[0] == a[0];
      SplitAppend(a[1..], b, sep);
      var R := Split(a[1..], sep);
      if a[0] == sep {
        FuseEmptyFirst(R, B);
      } else {
        FuseCons([a[0]], R, B);
      }
    }
  }

  /** The pieces of `a + b` when `a` has pieces `A` and `b` has pieces `B`. */
  function Fuse(A: seq<string>, B: seq<string>): seq<string>
    requires |A| > 0 && |B| > 0
  {
    A[..|A| - 1] + [A[|A| - 1] + B[0]] + B[1..]
  }

  /** Splitting after one more leading character: a separator opens a new
      first piece, any other character joins the first piece. */
  lemma SplitCons(c: char, x: string, sep: char)
    ensures var L, R := Split([c] + x, sep), Split(x, sep);
      && (c == sep ==> L == [""] + R)
      && (c != sep ==> |L| == |R| && L[0] == [c] + R[0] && forall i :: 0 < i < |R| ==> L[i] == R[i])
  {
    assert ([c] + x)[1..] == x;
  }

  /** Fusing with a single piece extends the last piece and keeps the others. */
  lemma FuseLast(A: seq<string>, b: string)
    requires |A| > 0
    ensures var F := Fuse(A, [b]);
      && |F| == |A| && F[|A| - 1] == A[|A| - 1] + b
      && forall i :: 0 <= i < |A| - 1 ==> F[i] == A[i]
  {
  }

  /** Fusing after an empty first piece keeps that piece in front. */
  lemma FuseEmptyFirst(R: seq<string>, B: seq<string>)
    requires |R| > 0 && |B| > 0
    ensures Fuse([""] + R, B) == [""] + Fuse(R, B)
  {
    assert ([""] + R)[..|R|] == [""] + R[..|R| - 1];
  }

  lemma FuseCons(c: string, R: seq<string>, B: seq<string>)
    requires |R| > 0 && |B| > 0
    ensures var F := Fuse(R, B); Fuse([c + R[0]] + R[1..], B) == [c + F[0]] + F[1..]
  {
    if |R| == 1 {
      assert c + (R[0] + B[0]) == c + R[0] + B[0];
    } else {
      assert ([c + R[0]] + R[1..])[..|R| - 1] == [c + R[0]] + R[1..|R| - 1];
    }
  }

  /** Splitting on a separator between two strings splits each side. */
  lemma SplitConcat(a: string, b: string, sep: char)
    ensures Split(a + [sep] + b, sep) == Split(a, sep) + Split(b, sep)
  {
    SplitAppend(a, [sep] + b, sep);
    assert ([sep] + b)[1..] == b;
    assert Split([sep] + b, sep) == [""] + Split(b, sep);
    assert a + [sep] + b == a + ([sep] + b);
    var A := Split(a, sep);
    assert A[|A| - 1] + "" == A[|A| - 1];
    assert A[..|A| - 1] + [A[|A| - 1]] == A;
    assert Fuse(A, [""] + Split(b, sep)) == A + Split(b, sep);
  }

  /** A leading whitespace character does not survive `strip()`. */
  lemma StripConsSpace(c: char, x: string)
    requires IsSpace(c)
    ensures Strip([c] + x) == Strip(x)
  {
    assert ([c] + x)[1..] == x;
  }

  lemma {:induction false} TrimLeftSnoc(x: string, c: char)
    ensures TrimLeft(x + [c]) == if |TrimLeft(x)| == 0 && IsSpace(c) then [] else TrimLeft(x) + [c]
    decreases |x|
  {
    if |x| > 0 {
      assert (x + [c])[1..] == x[1..] + [c];
      TrimLeftSnoc(x[1..], c);
    } else {
      assert x + [c] == [c];
      assert [c][1..] == [];
    }
  }

  /** A trailing whitespace character does not survive `strip()`. */
  lemma StripSnocSpace(x: string, c: char)
    requires IsSpace(c)
    ensures Strip(x + [c]) == Strip(x)
  {
    TrimLeftSnoc(x, c);
    var l := TrimLeft(x);
    if |l| > 0 {
      assert (l + [c])[..|l + [c]| - 1] == l;
    }
  }

  /** Every piece of a split occurs in the string, and the first piece is a
      prefix of it. */
  lemma {:induction false} SplitPiecesContained(s: string, sep: char)
    ensures StartsWith(s, Split(s, sep)[0])
    ensures forall p :: p in Split(s, sep) ==> Contains(s, p)
    decreases |s|
  {
    if |s| > 0 {
      SplitPiecesContained(s[1..], sep);
      var rest := Split(s[1..], sep);
      forall p | p in Split(s, sep) ensures Contains(s, p) {
        if p in rest {
          assert Contains(s[1..], p);
        } else {
          assert StartsWith(s, p);
        }
      }
    } else {
      assert s[..0] == "";
    }
  }

  /** `s.strip()` is a piece of `s`. */
  lemma StripContained(s: string)
    ensures Contains(s, Strip(s))
  {
    var l := TrimLeft(s);
    var r := Strip(s);
    var k := |s| - |l|;
    assert r == l[..|r|];
    assert s[k..k + |r|] == r;
    ContainsAt(s, r, k);
  }

  /** Python's `s.count(sub)`: non-overlapping occurrences, scanning left to right. */
  function Count(s: string, sub: string): nat
    decreases |s|
  {
    if |sub| == 0 then |s| + 1
    else if |s| < |sub| then 0
    else if StartsWith(s, sub) then 1 + Count(s[|sub|..], sub)
    else Count(s[1..], sub)
  }

  /** A positive count means the substring occurs. */
  lemma CountPositive(s: string, sub: string)
    requires |sub| > 0
    ensures Count(s, sub) > 0 <==> Contains(s, sub)
    decreases |s|
  {
    if |s| >= |sub| && !StartsWith(s, sub) {
      CountPositive(s[1..], sub);
    } else if |s| < |sub| && Contains(s, sub) {
      var i := ContainsWitness(s, sub);
    }
  }

  /** Length of the run of ASCII digits starting at `k`. */
  function DigitRun(line: string, k: nat): (n: nat)
    requires k <= |line|
    ensures k + n <= |line|
    ensures forall i :: k <= i < k + n ==> IsDigit(line[i])
    ensures k + n < |line| ==> !IsDigit(line[k + n])
    decreases |line| - k
  {
    if k == |line| || !IsDigit(line[k]) then 0 else 1 + DigitRun(line, k + 1)
  }

  function DigitChar(d: nat): (c: char)
    requires d < 10
    ensures IsDigit(c) && DigitValue(c) == d
  {
    ('0' as int + d) as char
  }

  /** Python's `str(n)` for a natural number. */
  function NatToString(n: nat): (s: string)
    ensures |s| > 0
    ensures forall i :: 0 <= i < |s| ==> IsDigit(s[i])
  {
    if n < 10 then [DigitChar(n)] else NatToString(n / 10) + [DigitChar(n % 10)]
  }

  /** Reading the digits back gives the number: `int(str(n)) == n`. */
  function DigitsValue(s: string): nat
    requires forall i :: 0 <= i < |s| ==> IsDigit(s[i])
  {
    if |s| == 0 then 0 else 10 * DigitsValue(s[..|s| - 1]) + DigitValue(s[|s| - 1])
  }

  lemma {:induction false} NatToStringRoundTrip(n: nat)
    ensures DigitsValue(NatToString(n)) == n
  {
    if n >= 10 {
      var s := NatToString(n);
      assert s[..|s| - 1] == NatToString(n / 10);
      NatToStringRoundTrip(n / 10);
    }
  }

  /** Distinct numbers print differently. */
  lemma NatToStringInjective(a: nat, b: nat)
    requires NatToString(a) == NatToString(b)
    ensures a == b
  {
    NatToStringRoundTrip(a);
    NatToStringRoundTrip(b);
  }

  /** Python's `str(i)` for any integer. */
  function IntToString(i: int): (s: string)
    ensures |s| > 0
  {
    if i < 0 then "-" + NatToString(-i) else NatToString(i)
  }
}
