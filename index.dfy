/**
 * The Positive Experience Index of one country: the mean of whichever of the
 * five positive indicators are present, computed as `sum(present) / len(present)`.
 * Real arithmetic stands for the script's floating point.
 */
module ExperienceIndex {
  import opened Wrappers
  import opened Collections

  /** The indicator columns, in report order. */
  const PositiveEmotions: seq<string> := ["Enjoyment", "Well-Rested", "Learned", "Smiled", "Respect"]

  /** The present values, in order. */
  function PresentValues(xs: seq<Option<real>>): (vs: seq<real>)
    ensures |vs| <= |xs|
  {
    if xs == [] then []
    else PresentValues(xs[..|xs| - 1]) + (if xs[|xs| - 1].Some? then [xs[|xs| - 1].value] else [])
  }

  /** Python's `sum`, adding from the left. */
  function Sum(vs: seq<real>): real {
    if vs == [] then 0.0 else Sum(vs[..|vs| - 1]) + vs[|vs| - 1]
  }

  function Mean(vs: seq<real>): real
    requires |vs| > 0
  {
    Sum(vs) / |vs| as real
  }

  /** The index, or ZeroDivisionError when no indicator is present. */
  function PositiveExperienceIndex(indicators: seq<Option<real>>): (r: Result<real, Error>)
    ensures r.Failure? ==> r.error == DivisionByZero && PresentValues(indicators) == []
    ensures r.Success? ==> |PresentValues(indicators)| > 0 && r.value == Mean(PresentValues(indicators))
  {
    var present := PresentValues(indicators);
    if |present| == 0 then Failure(DivisionByZero)
    else Success(Sum(present) / |present| as real)
  }

  /** The present values are the values of the Some entries, each as often as it is present. */
  lemma {:induction false} PresentValuesMembers(xs: seq<Option<real>>)
    ensures forall v :: v in PresentValues(xs) <==> exists i :: 0 <= i < |xs| && xs[i] == Some(v)
    ensures forall v :: multiset(PresentValues(xs))[v] == |set i | 0 <= i < |xs| && xs[i] == Some(v)|
  {
    if xs != [] {
      var n := |xs| - 1;
      PresentValuesMembers(xs[..n]);
      assert forall i :: 0 <= i < n ==> xs[..n][i] == xs[i];
    }
    forall v
      ensures multiset(PresentValues(xs))[v] == |set i | 0 <= i < |xs| && xs[i] == Some(v)|
    {
      PresentValueCount(xs, v);
    }
  }

  /** A value occurs among the present values as often as it is present. */
  lemma {:induction false} PresentValueCount(xs: seq<Option<real>>, v: real)
    ensures multiset(PresentValues(xs))[v] == |set i | 0 <= i < |xs| && xs[i] == Some(v)|
  {
    if xs != [] {
      var n := |xs| - 1;
      PresentValueCount(xs[..n], v);
      assert xs == xs[..n] + [xs[n]];
      PositionsOfLast(xs[..n], xs[n], v);
    }
  }

  /** Appending `x` adds one position holding `Some(v)` exactly when `x` is `Some(v)`. */
  lemma PositionsOfLast(pre: seq<Option<real>>, x: Option<real>, v: real)
    ensures |set i | 0 <= i < |pre + [x]| && (pre + [x])[i] == Some(v)| ==
              |set i | 0 <= i < |pre| && pre[i] == Some(v)| + (if x == Some(v) then 1 else 0)
  {
    var xs := pre + [x];
    var before := set i | 0 <= i < |pre| && pre[i] == Some(v);
    var now := set i | 0 <= i < |xs| && xs[i] == Some(v);
    if x == Some(v) {
      assert now == before + {|pre|};
    } else {
      assert now == before;
    }
  }

  /** The index is defined exactly when some indicator is present. */
  lemma {:induction false} IndexDefinedIff(indicators: seq<Option<real>>)
    ensures PositiveExperienceIndex(indicators).Success? <==>
              exists i :: 0 <= i < |indicators| && indicators[i].Some?
  {
    SomePresent(indicators);
  }

  lemma {:induction false} SomePresent(xs: seq<Option<real>>)
    ensures |PresentValues(xs)| > 0 <==> exists i :: 0 <= i < |xs| && xs[i].Some?
  {
    if xs != [] {
      var n := |xs| - 1;
      SomePresent(xs[..n]);
      assert forall i :: 0 <= i < n ==> xs[..n][i] == xs[i];
    }
  }

  /** Bounds on every term bound the sum. */
  lemma {:induction false} SumBounds(vs: seq<real>, lo: real, hi: real)
    requires forall i :: 0 <= i < |vs| ==> lo <= vs[i] <= hi
    ensures lo * |vs| as real <= Sum(vs) <= hi * |vs| as real
  {
    if vs != [] {
      var n := |vs| - 1;
      assert forall i :: 0 <= i < n ==> vs[..n][i] == vs[i];
      SumBounds(vs[..n], lo, hi);
      assert lo * |vs| as real == lo * n as real + lo;
      assert hi * |vs| as real == hi * n as real + hi;
    }
  }

  /** The mean lies within any bounds on its terms. */
  lemma MeanBetween(vs: seq<real>, lo: real, hi: real)
    requires |vs| > 0
    requires forall i :: 0 <= i < |vs| ==> lo <= vs[i] <= hi
    ensures lo <= Mean(vs) <= hi
  {
    SumBounds(vs, lo, hi);
    var n := |vs| as real;
    assert (Mean(vs) - lo) * n == Sum(vs) - lo * n;
    assert (hi - Mean(vs)) * n == hi * n - Sum(vs);
  }

  /** The smallest of a non-empty sequence. */
  function Min(vs: seq<real>): (m: real)
    requires |vs| > 0
    ensures m in vs && forall i :: 0 <= i < |vs| ==> m <= vs[i]
  {
    if |vs| == 1 then vs[0]
    else
      var m := Min(vs[1..]);
      assert forall i :: 1 <= i < |vs| ==> vs[i] == vs[1..][i - 1];
      if vs[0] <= m then vs[0] else m
  }

  /** The largest of a non-empty sequence. */
  function Max(vs: seq<real>): (m: real)
    requires |vs| > 0
    ensures m in vs && forall i :: 0 <= i < |vs| ==> vs[i] <= m
  {
    if |vs| == 1 then vs[0]
    else
      var m := Max(vs[1..]);
      assert forall i :: 1 <= i < |vs| ==> vs[i] == vs[1..][i - 1];
      if m <= vs[0] then vs[0] else m
  }

  /** The index lies between the smallest and the largest present indicator. */
  lemma IndexBetweenPresentValues(indicators: seq<Option<real>>)
    requires PositiveExperienceIndex(indicators).Success?
    ensures Min(PresentValues(indicators)) <= PositiveExperienceIndex(indicators).value <= Max(PresentValues(indicators))
  {
    var vs := PresentValues(indicators);
    MeanBetween(vs, Min(vs), Max(vs));
  }

  /** All five present: 0.5, 0.6, 0.7, 0.8 and 0.9 give 0.7. */
  lemma IndexOfFivePresent()
    ensures PositiveExperienceIndex([Some(0.5), Some(0.6), Some(0.7), Some(0.8), Some(0.9)]) == Success(0.7)
  {
    var xs: seq<Option<real>> := [Some(0.5), Some(0.6), Some(0.7), Some(0.8), Some(0.9)];
    assert PresentValues(xs) == [0.5, 0.6, 0.7, 0.8, 0.9] by {
      assert xs[..1][..0] == [];
      assert xs[..2][..1] == xs[..1];
      assert xs[..3][..2] == xs[..2];
      assert xs[..4][..3] == xs[..3];
      assert xs[..4] == xs[..|xs| - 1];
      assert PresentValues(xs[..2]) == [0.5, 0.6];
      assert PresentValues(xs[..4]) == [0.5, 0.6, 0.7, 0.8];
    }
    assert Sum([0.5, 0.6, 0.7, 0.8, 0.9]) == 3.5 by {
      assert [0.5, 0.6, 0.7, 0.8, 0.9][..4] == [0.5, 0.6, 0.7, 0.8];
      assert [0.5, 0.6, 0.7, 0.8][..3] == [0.5, 0.6, 0.7];
      assert [0.5, 0.6, 0.7][..2] == [0.5, 0.6];
      assert [0.5, 0.6][..1] == [0.5];
      assert [0.5][..0] == [];
    }
  }

  /** Two present, 1.0 and 0.0, with three absent: 0.5. */
  lemma IndexOfTwoPresent()
    ensures PositiveExperienceIndex([Some(1.0), None, Some(0.0), None, None]) == Success(0.5)
  {
    var xs: seq<Option<real>> := [Some(1.0), None, Some(0.0), None, None];
    assert PresentValues(xs) == [1.0, 0.0] by {
      assert xs[..1][..0] == [];
      assert xs[..2][..1] == xs[..1];
      assert xs[..3][..2] == xs[..2];
      assert xs[..4][..3] == xs[..3];
      assert xs[..4] == xs[..|xs| - 1];
      assert PresentValues(xs[..1]) == [1.0];
      assert PresentValues(xs[..2]) == [1.0];
      assert PresentValues(xs[..3]) == [1.0, 0.0];
    }
    assert Sum([1.0, 0.0]) == 1.0 by {
      assert [1.0, 0.0][..1] == [1.0];
      assert [1.0][..0] == [];
    }
  }

  /** All five absent: the division fails. */
  lemma IndexOfNonePresent()
    ensures PositiveExperienceIndex([None, None, None, None, None]) == Failure(DivisionByZero)
  {
    IndexDefinedIff([None, None, None, None, None]);
  }
}
