/** Small numeric helpers shared by the modules: `min`, `max`, the
    ratio of two counts as an exact real, capping at 1, clamping to `[0, 1]`
    and the absolute value. */
module Numeric {
  function Min(a: int, b: int): int { if a <= b then a else b }
  function Max(a: int, b: int): int { if a >= b then a else b }

  /** `max(0.0, min(1.0, x))`. */
  function Clamp(x: real): (r: real)
    ensures 0.0 <= r <= 1.0
    ensures 0.0 <= x <= 1.0 ==> r == x
  {
    if x < 0.0 then 0.0 else if x > 1.0 then 1.0 else x
  }

  /** `min(1.0, x)`. */
  function Capped(x: real): (r: real)
    ensures r <= 1.0 && (x >= 0.0 ==> r >= 0.0)
    ensures x <= 1.0 ==> r == x
    ensures r == 1.0 <==> x >= 1.0
  {
    if x <= 1.0 then x else 1.0
  }

  lemma ClampMonotone(x: real, y: real)
    requires x <= y
    ensures Clamp(x) <= Clamp(y)
  {
  }

  lemma CappedMonotone(x: real, y: real)
    requires x <= y
    ensures Capped(x) <= Capped(y)
  {
  }

  function Abs(x: real): real {
    if x < 0.0 then -x else x
  }

  /** `c / n` for counts; a part of a whole lies in `[0, 1]`. */
  function Ratio(c: nat, n: nat): (r: real)
    requires 0 < n
    ensures r == c as real / n as real
    ensures 0.0 <= r && (c <= n ==> r <= 1.0)
    ensures c > 0 ==> r > 0.0
    ensures r == 1.0 <==> c == n
  {
    c as real / n as real
  }

  /** Dividing a non-negative amount by a larger count gives no more. */
  lemma QuotientAntitone(x: real, m: nat, n: nat)
    requires x >= 0.0 && 0 < m <= n
    ensures x / n as real <= x / m as real
  {
    var a, b := x / n as real, x / m as real;
    assert a * n as real == x && b * m as real == x;
    assert a >= 0.0;
    assert a * m as real <= a * n as real;
    assert (b - a) * m as real >= 0.0;
  }

  /** The mean of `n` equal amounts is that amount. */
  lemma MeanOfEqual(w: real, n: nat)
    requires n > 0
    ensures (w * n as real) / n as real == w
  {
  }

  function Sum(xs: seq<int>): int {
    if |xs| == 0 then 0 else xs[0] + Sum(xs[1..])
  }

  lemma {:induction false} SumAppend(xs: seq<int>, x: int)
    ensures Sum(xs + [x]) == Sum(xs) + x
  {
    if |xs| > 0 {
      assert (xs + [x])[1..] == xs[1..] + [x];
      SumAppend(xs[1..], x);
    }
  }

  /** A sum of counts is at least the chosen count plus one for each of the
      other counts that is positive. */
  lemma {:induction false} SumAtLeast(xs: seq<int>, j: nat)
    requires j < |xs| && forall i :: 0 <= i < |xs| ==> xs[i] >= 1
    ensures Sum(xs) >= xs[j] + |xs| - 1
  {
    if j > 0 {
      SumAtLeast(xs[1..], j - 1);
    } else if |xs| > 1 {
      SumAtLeast(xs[1..], 0);
    }
  }

  /** The index `max(range(len(xs)), key=xs.__getitem__)` picks: a maximal
      element, and the first one when several are maximal. */
  function ArgMaxFirst(xs: seq<int>): (j: nat)
    requires |xs| > 0
    ensures j < |xs|
    ensures forall i :: 0 <= i < |xs| ==> xs[i] <= xs[j]
    ensures forall i :: 0 <= i < j ==> xs[i] < xs[j]
  {
    if |xs| == 1 then 0
    else
      var j := ArgMaxFirst(xs[..|xs| - 1]);
      if xs[|xs| - 1] > xs[j] then |xs| - 1 else j
  }

  /** Only one index is both maximal and ahead of every other maximal one. */
  lemma ArgMaxFirstUnique(xs: seq<int>, k: nat)
    requires k < |xs|
    requires forall i :: 0 <= i < |xs| ==> xs[i] <= xs[k]
    requires forall i :: 0 <= i < k ==> xs[i] < xs[k]
    ensures ArgMaxFirst(xs) == k
  {
  }

  function Pow10(n: nat): (p: nat)
    ensures p >= 1
  {
    if n == 0 then 1 else 10 * Pow10(n - 1)
  }

  /** The number of conditions that hold. */
  function CountTrue(c: seq<bool>): (n: nat)
    ensures n <= |c|
  {
    if |c| == 0 then 0 else (if c[0] then 1 else 0) + CountTrue(c[1..])
  }

  lemma {:induction false} AllTrue(c: seq<bool>)
    ensures CountTrue(c) == |c| <==> forall i :: 0 <= i < |c| ==> c[i]
  {
    if |c| > 0 {
      AllTrue(c[1..]);
      assert forall i :: 1 <= i < |c| ==> c[i] == c[1..][i - 1];
    }
  }

  lemma CountTrueThree(c: seq<bool>)
    requires |c| == 3
    ensures CountTrue(c) == (if c[0] then 1 else 0) + (if c[1] then 1 else 0) + (if c[2] then 1 else 0)
  {
    assert CountTrue(c[1..][1..][1..]) == 0;
    assert CountTrue(c[1..][1..]) == (if c[2] then 1 else 0);
    assert CountTrue(c[1..]) == (if c[1] then 1 else 0) + (if c[2] then 1 else 0);
  }
}
