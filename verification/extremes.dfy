/** `getMax` and `getMin` of js/main-4.js: linear scans over the features'
    values for one attribute, used to size the legend. Each comparison reads
    `parseInt(v)`, but the raw `v` is what gets stored. */
module Extremes {
  import opened JsNumber

  /** `parseInt(v) > max` and `parseInt(v) < min`, with `max`/`min` starting
      at -Infinity/+Infinity and afterwards always a stored finite value. */
  predicate TruncAbove(v: real, m: Num) {
    match m
    case Fin(x) => Trunc(v) as real > x
    case NegInf => true
    case _ => false
  }

  predicate TruncBelow(v: real, m: Num) {
    match m
    case Fin(x) => (Trunc(v) as real) < x
    case PosInf => true
    case _ => false
  }

  /** The value of `max` after the loop has seen `vs`. */
  function ScanMax(vs: seq<real>): Num
    decreases |vs|
  {
    if |vs| == 0 then NegInf
    else
      var m := ScanMax(vs[..|vs| - 1]);
      if TruncAbove(vs[|vs| - 1], m) then Fin(vs[|vs| - 1]) else m
  }

  /** The value of `min` after the loop has seen `vs`. */
  function ScanMin(vs: seq<real>): Num
    decreases |vs|
  {
    if |vs| == 0 then PosInf
    else
      var m := ScanMin(vs[..|vs| - 1]);
      if TruncBelow(vs[|vs| - 1], m) then Fin(vs[|vs| - 1]) else m
  }

  /** A real is a whole number. */
  predicate Whole(x: real) {
    Trunc(x) as real == x
  }

  /** What `getMax` returns: -Infinity for no values; otherwise one of the
      values, whose whole part is the largest whole part; for whole-number
      values that is the true maximum. */
  lemma {:induction false} ScanMaxIsTruncMax(vs: seq<real>)
    ensures |vs| == 0 <==> ScanMax(vs) == NegInf
    ensures ScanMax(vs).Fin? || ScanMax(vs) == NegInf
    ensures ScanMax(vs).Fin? ==> ScanMax(vs).r in vs
    ensures ScanMax(vs).Fin? ==> forall j :: 0 <= j < |vs| ==> Trunc(vs[j]) <= Trunc(ScanMax(vs).r)
    ensures ScanMax(vs).Fin? && (forall j :: 0 <= j < |vs| ==> Whole(vs[j])) ==>
              forall j :: 0 <= j < |vs| ==> vs[j] <= ScanMax(vs).r
    decreases |vs|
  {
    if |vs| > 0 {
      var init := vs[..|vs| - 1];
      var v := vs[|vs| - 1];
      ScanMaxIsTruncMax(init);
      var m := ScanMax(init);
      assert forall j :: 0 <= j < |init| ==> init[j] == vs[j];
      if m.Fin? {
        assert m.r in vs;
        if TruncAbove(v, m) {
          // the stored whole part only grows
          assert Trunc(m.r) <= Trunc(v);
        } else {
          assert Trunc(v) <= Trunc(m.r);
        }
      }
      var w := ScanMax(vs).r;
      if forall j :: 0 <= j < |vs| ==> Whole(vs[j]) {
        assert Whole(w) by {
          assert w in vs;
        }
        forall j | 0 <= j < |vs|
          ensures vs[j] <= w
        {
          assert Whole(vs[j]);
        }
      }
    }
  }

  /** What `getMin` returns, symmetrically: +Infinity for no values;
      otherwise one of the values, whose whole part is the smallest. */
  lemma {:induction false} ScanMinIsTruncMin(vs: seq<real>)
    ensures |vs| == 0 <==> ScanMin(vs) == PosInf
    ensures ScanMin(vs).Fin? || ScanMin(vs) == PosInf
    ensures ScanMin(vs).Fin? ==> ScanMin(vs).r in vs
    ensures ScanMin(vs).Fin? ==> forall j :: 0 <= j < |vs| ==> Trunc(ScanMin(vs).r) <= Trunc(vs[j])
    ensures ScanMin(vs).Fin? && (forall j :: 0 <= j < |vs| ==> Whole(vs[j])) ==>
              forall j :: 0 <= j < |vs| ==> ScanMin(vs).r <= vs[j]
    decreases |vs|
  {
    if |vs| > 0 {
      var init := vs[..|vs| - 1];
      var v := vs[|vs| - 1];
      ScanMinIsTruncMin(init);
      var m := ScanMin(init);
      assert forall j :: 0 <= j < |init| ==> init[j] == vs[j];
      if m.Fin? {
        assert m.r in vs;
        if TruncBelow(v, m) {
          assert Trunc(v) <= Trunc(m.r);
        } else {
          assert Trunc(m.r) <= Trunc(v);
        }
      }
      var w := ScanMin(vs).r;
      if forall j :: 0 <= j < |vs| ==> Whole(vs[j]) {
        assert Whole(w) by {
          assert w in vs;
        }
        forall j | 0 <= j < |vs|
          ensures w <= vs[j]
        {
          assert Whole(vs[j]);
        }
      }
    }
  }

  /** `getMax(arr, prop)`, on the values `arr[i].properties[prop]`. */
  method GetMax(vs: seq<real>) returns (max: Num)
    ensures max == ScanMax(vs)
    ensures |vs| == 0 ==> max == NegInf
    ensures |vs| > 0 ==> max.Fin? && max.r in vs
    ensures max.Fin? ==> forall j :: 0 <= j < |vs| ==> Trunc(vs[j]) <= Trunc(max.r)
  {
    max := NegInf;
    var i := 0;
    while i < |vs|
      invariant 0 <= i <= |vs|
      invariant max == ScanMax(vs[..i])
    {
      assert vs[..i + 1][..i] == vs[..i];
      if TruncAbove(vs[i], max) {
        max := Fin(vs[i]);
      }
      i := i + 1;
    }
    assert vs[..i] == vs;
    ScanMaxIsTruncMax(vs);
  }

  /** `getMin(arr, prop)`, on the values `arr[i].properties[prop]`. */
  method GetMin(vs: seq<real>) returns (min: Num)
    ensures min == ScanMin(vs)
    ensures |vs| == 0 ==> min == PosInf
    ensures |vs| > 0 ==> min.Fin? && min.r in vs
    ensures min.Fin? ==> forall j :: 0 <= j < |vs| ==> Trunc(min.r) <= Trunc(vs[j])
  {
    min := PosInf;
    var i := 0;
    while i < |vs|
      invariant 0 <= i <= |vs|
      invariant min == ScanMin(vs[..i])
    {
      assert vs[..i + 1][..i] == vs[..i];
      if TruncBelow(vs[i], min) {
        min := Fin(vs[i]);
      }
      i := i + 1;
    }
    assert vs[..i] == vs;
    ScanMinIsTruncMin(vs);
  }

  /** With fractional values the scans miss: for 10.2 then 10.7, `getMax`
      keeps 10.2 and `getMin` keeps 10.7. */
  lemma FractionalValuesMislead()
    ensures ScanMax([10.2, 10.7]) == Fin(10.2)
    ensures ScanMin([10.2, 10.7]) == Fin(10.7)
  {
    assert Trunc(10.2) == 10 && Trunc(10.7) == 10;
    assert [10.2, 10.7][..1] == [10.2];
    assert [10.2][..0] == [];
  }

  /** The scans as evidently intended: compare the stored values themselves. */
  method GetMaxFixed(vs: seq<real>) returns (max: Num)
    ensures |vs| == 0 ==> max == NegInf
    ensures |vs| > 0 ==> max.Fin? && max.r in vs && forall j :: 0 <= j < |vs| ==> vs[j] <= max.r
  {
    max := NegInf;
    var i := 0;
    while i < |vs|
      invariant 0 <= i <= |vs|
      invariant i == 0 <==> max == NegInf
      invariant i > 0 ==> max.Fin? && max.r in vs[..i] && forall j :: 0 <= j < i ==> vs[j] <= max.r
      invariant max.Fin? || max == NegInf
    {
      if max == NegInf || vs[i] > max.r {
        max := Fin(vs[i]);
      }
      i := i + 1;
    }
    assert vs[..i] == vs;
  }

  method GetMinFixed(vs: seq<real>) returns (min: Num)
    ensures |vs| == 0 ==> min == PosInf
    ensures |vs| > 0 ==> min.Fin? && min.r in vs && forall j :: 0 <= j < |vs| ==> min.r <= vs[j]
  {
    min := PosInf;
    var i := 0;
    while i < |vs|
      invariant 0 <= i <= |vs|
      invariant i == 0 <==> min == PosInf
      invariant i > 0 ==> min.Fin? && min.r in vs[..i] && forall j :: 0 <= j < i ==> min.r <= vs[j]
      invariant min.Fin? || min == PosInf
    {
      if min == PosInf || vs[i] < min.r {
        min := Fin(vs[i]);
      }
      i := i + 1;
    }
    assert vs[..i] == vs;
  }
}
