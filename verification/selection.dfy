/** In-order selection from a sequence: which positions a test keeps, and
    what it means for a list to hold the kept elements once each, in their
    original order. Every "the items that match, in table order" result of
    the other modules is stated with it. */
module Selection {

  /** The indices of the elements of `xs` that `keep` accepts, ascending. */
  function Positions<T>(xs: seq<T>, keep: T -> bool): (I: seq<nat>)
    ensures IsPositions(I, xs, keep)
  {
    if |xs| == 0 then []
    else
      var J := Positions(xs[1..], keep);
      PositionsCons(xs, keep, J);
      (if keep(xs[0]) then [0] else []) + Shift(J)
  }

  /** `I` lists, ascending, exactly the indices of the elements of `xs`
      that `keep` accepts. */
  predicate IsPositions<T>(I: seq<nat>, xs: seq<T>, keep: T -> bool) {
    && (forall j :: 0 <= j < |I| ==> I[j] < |xs| && keep(xs[I[j]]))
    && (forall j, j' :: 0 <= j < j' < |I| ==> I[j] < I[j'])
    && (forall i :: 0 <= i < |xs| && keep(xs[i]) ==> i in I)
  }

  function Shift(I: seq<nat>): (J: seq<nat>)
    ensures |J| == |I| && forall j :: 0 <= j < |I| ==> J[j] == I[j] + 1
  {
    seq(|I|, j requires 0 <= j < |I| => I[j] + 1)
  }

  lemma PositionsCons<T>(xs: seq<T>, keep: T -> bool, J: seq<nat>)
    requires |xs| > 0 && IsPositions(J, xs[1..], keep)
    ensures IsPositions((if keep(xs[0]) then [0] else []) + Shift(J), xs, keep)
  {
    var I := (if keep(xs[0]) then [0] else []) + Shift(J);
    var h := if keep(xs[0]) then 1 else 0;
    ShiftedIndices(xs, keep, J, I, h);
    ShiftedOrdered(J, I, h);
    ShiftedComplete(xs, keep, J, I, h);
  }

  /** The indices after the head point one further into `xs` than `J` does
      into its tail. */
  lemma ShiftedIndices<T>(xs: seq<T>, keep: T -> bool, J: seq<nat>, I: seq<nat>, h: nat)
    requires |xs| > 0 && IsPositions(J, xs[1..], keep)
    requires h == (if keep(xs[0]) then 1 else 0) && I == (if keep(xs[0]) then [0] else []) + Shift(J)
    ensures forall j :: 0 <= j < |I| ==> I[j] < |xs| && keep(xs[I[j]])
  {
    forall j | 0 <= j < |I| ensures I[j] < |xs| && keep(xs[I[j]]) {
      if j >= h {
        assert I[j] == J[j - h] + 1;
        assert xs[1..][J[j - h]] == xs[I[j]];
      }
    }
  }

  lemma ShiftedOrdered(J: seq<nat>, I: seq<nat>, h: nat)
    requires forall j, j' :: 0 <= j < j' < |J| ==> J[j] < J[j']
    requires h <= 1 && I == (if h == 1 then [0] else []) + Shift(J)
    ensures forall j, j' :: 0 <= j < j' < |I| ==> I[j] < I[j']
  {
    forall j, j' | 0 <= j < j' < |I| ensures I[j] < I[j'] {
      assert I[j'] == J[j' - h] + 1;
      if j >= h {
        assert I[j] == J[j - h] + 1;
      }
    }
  }

  lemma ShiftedComplete<T>(xs: seq<T>, keep: T -> bool, J: seq<nat>, I: seq<nat>, h: nat)
    requires |xs| > 0 && IsPositions(J, xs[1..], keep)
    requires h == (if keep(xs[0]) then 1 else 0) && I == (if keep(xs[0]) then [0] else []) + Shift(J)
    ensures forall i :: 0 <= i < |xs| && keep(xs[i]) ==> i in I
  {
    forall i | 0 <= i < |xs| && keep(xs[i]) ensures i in I {
      if i > 0 {
        assert xs[1..][i - 1] == xs[i];
        var j :| 0 <= j < |J| && J[j] == i - 1;
        assert I[h + j] == i;
      } else {
        assert I[0] == 0;
      }
    }
  }

  /** `r` is `f` of the elements of `xs` that `keep` accepts, one entry per
      accepted position, in the order of `xs`. */
  predicate SelectsInOrder<T, U(==)>(r: seq<U>, xs: seq<T>, keep: T -> bool, f: T -> U) {
    var I := Positions(xs, keep);
    |r| == |I| && forall j :: 0 <= j < |I| ==> r[j] == f(xs[I[j]])
  }

  function Identity<T>(): T -> T {
    x => x
  }

  /** Selecting from `[x] + rest`: `f(x)` first when `x` is kept, then the
      selection from `rest`. */
  lemma SelectsCons<T, U>(r: seq<U>, xs: seq<T>, keep: T -> bool, f: T -> U)
    requires |xs| > 0 && SelectsInOrder(r, xs[1..], keep, f)
    ensures SelectsInOrder((if keep(xs[0]) then [f(xs[0])] else []) + r, xs, keep, f)
  {
    var J := Positions(xs[1..], keep);
    assert Positions(xs, keep) == (if keep(xs[0]) then [0] else []) + Shift(J);
    SelectsShifted(r, xs, f, J, keep(xs[0]));
  }

  lemma SelectsShifted<T, U>(r: seq<U>, xs: seq<T>, f: T -> U, J: seq<nat>, b: bool)
    requires |xs| > 0 && |r| == |J|
    requires forall j :: 0 <= j < |J| ==> J[j] < |xs| - 1 && r[j] == f(xs[1..][J[j]])
    ensures var r', I := (if b then [f(xs[0])] else []) + r, (if b then [0] else []) + Shift(J);
      |r'| == |I| && forall j :: 0 <= j < |I| ==> I[j] < |xs| && r'[j] == f(xs[I[j]])
  {
    var r', I := (if b then [f(xs[0])] else []) + r, (if b then [0] else []) + Shift(J);
    var h := if b then 1 else 0;
    forall j | 0 <= j < |I| ensures I[j] < |xs| && r'[j] == f(xs[I[j]]) {
      if j >= h {
        assert r'[j] == r[j - h] && I[j] == J[j - h] + 1;
        assert xs[1..][J[j - h]] == xs[I[j]];
      }
    }
  }
}
