/** The symbol encoder shared by the three scripts: the proportional-symbol
    size (`calcPropRadius`), and the three colour step functions of the two
    later scripts, which are identical in js/main-2.js and js/main-4.js. */
module Encoder {
  import opened JsNumber

  /** The palette hex constants, one constructor per constant. */
  datatype Colour =
    | Hex67000d | Hexa50f15 | Hexef3b2c | Hexfb6a4a | Hexfee0d2 | Hexfff5f0
    | Hexd73027 | Hexf46d43 | Hexfdae61 | Hexfee08b | Hexd9ef8b | Hexa6d96a | Hex66bd63

  // ---------------------------------------------------------------------
  // Size

  const ScaleFactor: real := 5.0

  /** Area of the symbol for a finite attribute value. The radius the marker
      is drawn with is the square root of this area over PI. */
  function AreaOf(v: real): (a: real)
    ensures a >= 0.0
    ensures a == 0.0 <==> v == 0.0
  {
    Abs(v) * ScaleFactor
  }

  /** `Math.abs(attValue) * scaleFactor` on a JavaScript number. */
  function PropArea(v: Num): (a: Num)
    ensures v.Fin? ==> a == Fin(AreaOf(v.r))
    ensures v.NaN? <==> a.NaN?
    ensures (v.PosInf? || v.NegInf?) <==> a.PosInf?
    ensures !a.NegInf?
  {
    Mul(AbsNum(v), Fin(ScaleFactor))
  }

  /** The symbol size depends only on |v|: equal magnitudes give equal
      areas (so r(v) == r(-v)) and a larger magnitude never gives a smaller
      area. The radius sqrt(area / PI) is increasing in the area, so the
      same holds of the radius. */
  lemma AreaDependsOnMagnitude(u: real, v: real)
    ensures Abs(u) <= Abs(v) ==> AreaOf(u) <= AreaOf(v)
    ensures Abs(u) == Abs(v) ==> AreaOf(u) == AreaOf(v)
    ensures AreaOf(u) == AreaOf(-u)
  {
  }

  // ---------------------------------------------------------------------
  // Colour: a reference definition for the descending-threshold chains

  ghost predicate Descending(ts: seq<real>) {
    forall i, j :: 0 <= i < j < |ts| ==> ts[i] > ts[j]
  }

  /** The bucket of `v` on a threshold list: how many thresholds `v` fails to
      reach (`v >= t` is false). For a descending list that is the position
      of the first threshold `v` reaches, so the chain answers palette[Rank]. */
  function Rank(ts: seq<real>, v: Num): (k: nat)
    ensures k <= |ts|
  {
    if |ts| == 0 then 0
    else (if AtLeast(v, ts[0]) then 0 else 1) + Rank(ts[1..], v)
  }

  /** A value reaching exactly the thresholds from position `k` on has rank k. */
  lemma {:induction false} RankOfSplit(ts: seq<real>, v: Num, k: nat)
    requires k <= |ts|
    requires forall i :: 0 <= i < k ==> !AtLeast(v, ts[i])
    requires forall i :: k <= i < |ts| ==> AtLeast(v, ts[i])
    ensures Rank(ts, v) == k
    decreases |ts|
  {
    if |ts| > 0 {
      var k' := if k == 0 then 0 else k - 1;
      forall i | 0 <= i < k'
        ensures !AtLeast(v, ts[1..][i])
      {
        assert ts[1..][i] == ts[i + 1];
      }
      forall i | k' <= i < |ts| - 1
        ensures AtLeast(v, ts[1..][i])
      {
        assert ts[1..][i] == ts[i + 1];
      }
      RankOfSplit(ts[1..], v, k');
    }
  }

  /** On a descending list, a value that reaches threshold k but not k-1 has
      rank k. */
  lemma RankIs(ts: seq<real>, v: Num, k: nat)
    requires Descending(ts)
    requires k <= |ts|
    requires k < |ts| ==> AtLeast(v, ts[k])
    requires 0 < k ==> !AtLeast(v, ts[k - 1])
    ensures Rank(ts, v) == k
  {
    forall i | k <= i < |ts|
      ensures AtLeast(v, ts[i])
    {
      AtLeastLower(v, ts[k], ts[i]);
    }
    forall i | 0 <= i < k
      ensures !AtLeast(v, ts[i])
    {
      if AtLeast(v, ts[i]) {
        AtLeastLower(v, ts[i], ts[k - 1]);
      }
    }
    RankOfSplit(ts, v, k);
  }

  /** A larger value never lands in a higher-rank (lighter) bucket. */
  lemma {:induction false} RankAntitone(ts: seq<real>, x: real, y: real)
    requires x <= y
    ensures Rank(ts, Fin(y)) <= Rank(ts, Fin(x))
    decreases |ts|
  {
    if |ts| > 0 {
      RankAntitone(ts[1..], x, y);
    }
  }

  /** NaN reaches no threshold and +Infinity reaches all of them. */
  lemma {:induction false} RankNonFinite(ts: seq<real>)
    ensures Rank(ts, NaN) == |ts| && Rank(ts, NegInf) == |ts|
    ensures Rank(ts, PosInf) == 0
    decreases |ts|
  {
    if |ts| > 0 {
      RankNonFinite(ts[1..]);
    }
  }

  // ---------------------------------------------------------------------
  // The chains of js/main-2.js and js/main-4.js

  const AbsoluteThresholds: seq<real> := [100.0, 75.0, 50.0, 25.0, 10.0]
  const ChangeThresholds: seq<real> := [50.0, 25.0, 10.0, 0.0, -10.0, -25.0, -50.0]

  const AbsolutePalette: seq<Colour> :=
    [Hex67000d, Hexa50f15, Hexef3b2c, Hexfb6a4a, Hexfee0d2, Hexfff5f0]
  const ChangePalette: seq<Colour> :=
    [Hexd73027, Hexf46d43, Hexfdae61, Hexfee08b, Hexd9ef8b, Hexa6d96a, Hex66bd63, Hex66bd63]
  const PctChangePalette: seq<Colour> :=
    [Hex67000d, Hexd73027, Hexfdae61, Hexfee08b, Hexd9ef8b, Hexa6d96a, Hex66bd63, Hex66bd63]

  lemma ThresholdsDescending()
    ensures Descending(AbsoluteThresholds)
    ensures Descending(ChangeThresholds)
  {
  }

  function CalcColor(v: Num): Colour {
    if AtLeast(v, 100.0) then Hex67000d
    else if AtLeast(v, 75.0) then Hexa50f15
    else if AtLeast(v, 50.0) then Hexef3b2c
    else if AtLeast(v, 25.0) then Hexfb6a4a
    else if AtLeast(v, 10.0) then Hexfee0d2
    else Hexfff5f0
  }

  function CalcColorChange(v: Num): Colour {
    if AtLeast(v, 50.0) then Hexd73027
    else if AtLeast(v, 25.0) then Hexf46d43
    else if AtLeast(v, 10.0) then Hexfdae61
    else if AtLeast(v, 0.0) then Hexfee08b
    else if AtLeast(v, -10.0) then Hexd9ef8b
    else if AtLeast(v, -25.0) then Hexa6d96a
    else if AtLeast(v, -50.0) then Hex66bd63
    else Hex66bd63
  }

  function CalcColorPctChange(v: Num): Colour {
    if AtLeast(v, 50.0) then Hex67000d
    else if AtLeast(v, 25.0) then Hexd73027
    else if AtLeast(v, 10.0) then Hexfdae61
    else if AtLeast(v, 0.0) then Hexfee08b
    else if AtLeast(v, -10.0) then Hexd9ef8b
    else if AtLeast(v, -25.0) then Hexa6d96a
    else if AtLeast(v, -50.0) then Hex66bd63
    else Hex66bd63
  }

  /** `calcColor` is the six-bucket step function over 100/75/50/25/10: every
      number, NaN included, gets the colour of its bucket. */
  lemma CalcColorBucket(v: Num)
    ensures CalcColor(v) == AbsolutePalette[Rank(AbsoluteThresholds, v)]
  {
    var ts := AbsoluteThresholds;
    ThresholdsDescending();
    if AtLeast(v, 100.0) { RankIs(ts, v, 0); }
    else if AtLeast(v, 75.0) { RankIs(ts, v, 1); }
    else if AtLeast(v, 50.0) { RankIs(ts, v, 2); }
    else if AtLeast(v, 25.0) { RankIs(ts, v, 3); }
    else if AtLeast(v, 10.0) { RankIs(ts, v, 4); }
    else { RankIs(ts, v, 5); }
  }

  /** `calcColorChange` is the step function over 50/25/10/0/-10/-25/-50. */
  lemma CalcColorChangeBucket(v: Num)
    ensures CalcColorChange(v) == ChangePalette[Rank(ChangeThresholds, v)]
  {
    var ts := ChangeThresholds;
    ThresholdsDescending();
    if AtLeast(v, 50.0) { RankIs(ts, v, 0); }
    else if AtLeast(v, 25.0) { RankIs(ts, v, 1); }
    else if AtLeast(v, 10.0) { RankIs(ts, v, 2); }
    else if AtLeast(v, 0.0) { RankIs(ts, v, 3); }
    else if AtLeast(v, -10.0) { RankIs(ts, v, 4); }
    else if AtLeast(v, -25.0) { RankIs(ts, v, 5); }
    else if AtLeast(v, -50.0) { RankIs(ts, v, 6); }
    else { RankIs(ts, v, 7); }
  }

  /** `calcColorPctChange` is the step function over the same thresholds. */
  lemma CalcColorPctChangeBucket(v: Num)
    ensures CalcColorPctChange(v) == PctChangePalette[Rank(ChangeThresholds, v)]
  {
    var ts := ChangeThresholds;
    ThresholdsDescending();
    if AtLeast(v, 50.0) { RankIs(ts, v, 0); }
    else if AtLeast(v, 25.0) { RankIs(ts, v, 1); }
    else if AtLeast(v, 10.0) { RankIs(ts, v, 2); }
    else if AtLeast(v, 0.0) { RankIs(ts, v, 3); }
    else if AtLeast(v, -10.0) { RankIs(ts, v, 4); }
    else if AtLeast(v, -25.0) { RankIs(ts, v, 5); }
    else if AtLeast(v, -50.0) { RankIs(ts, v, 6); }
    else { RankIs(ts, v, 7); }
  }

  /** The absolute palette runs from darkest to lightest without repeats, so
      a larger value never gets a lighter colour. */
  lemma CalcColorMonotone(x: real, y: real)
    requires x <= y
    ensures Rank(AbsoluteThresholds, Fin(y)) <= Rank(AbsoluteThresholds, Fin(x))
    ensures CalcColor(Fin(x)) == AbsolutePalette[Rank(AbsoluteThresholds, Fin(x))]
    ensures CalcColor(Fin(y)) == AbsolutePalette[Rank(AbsoluteThresholds, Fin(y))]
    ensures CalcColor(Fin(x)) == CalcColor(Fin(y)) <==>
              Rank(AbsoluteThresholds, Fin(x)) == Rank(AbsoluteThresholds, Fin(y))
  {
    RankAntitone(AbsoluteThresholds, x, y);
    CalcColorBucket(Fin(x));
    CalcColorBucket(Fin(y));
  }

  /** Both change scales are monotone in the same way. */
  lemma ChangeColoursMonotone(x: real, y: real)
    requires x <= y
    ensures Rank(ChangeThresholds, Fin(y)) <= Rank(ChangeThresholds, Fin(x))
    ensures CalcColorChange(Fin(x)) == ChangePalette[Rank(ChangeThresholds, Fin(x))]
    ensures CalcColorChange(Fin(y)) == ChangePalette[Rank(ChangeThresholds, Fin(y))]
    ensures CalcColorPctChange(Fin(x)) == PctChangePalette[Rank(ChangeThresholds, Fin(x))]
    ensures CalcColorPctChange(Fin(y)) == PctChangePalette[Rank(ChangeThresholds, Fin(y))]
  {
    RankAntitone(ChangeThresholds, x, y);
    CalcColorChangeBucket(Fin(x));
    CalcColorChangeBucket(Fin(y));
    CalcColorPctChangeBucket(Fin(x));
    CalcColorPctChangeBucket(Fin(y));
  }

  /** In `calcColorChange` the -50 threshold changes nothing: every value
      below -25, NaN included, gets '#66bd63'; no value at or above -25 does. */
  lemma ChangeBelowMinus25(v: Num)
    ensures CalcColorChange(v) == Hex66bd63 <==> !AtLeast(v, -25.0)
  {
  }
}
