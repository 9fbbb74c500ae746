/** The earlier script, js/main-3.js: its own palettes, a change value of
    reversed sign coloured on the absolute scale, year buttons that only
    restyle, and mode buttons that restyle under the key "undefined" and
    throw at the first marker they touch. */
module EarlyVariant {
  import opened JsNumber
  import opened Encoder
  import opened Metrics
  import opened Stepper
  import opened Symbols

  /** The absolute scale of this script: same thresholds as the later ones,
      but a green '#a6d96a' in the 75..100 bucket. */
  const AbsolutePalette3: seq<Colour> :=
    [Hex67000d, Hexa6d96a, Hexef3b2c, Hexfb6a4a, Hexfee0d2, Hexfff5f0]

  /** The change scale of this script: green for large values, dark red for
      the lowest, eight different colours. */
  const ChangePalette3: seq<Colour> :=
    [Hex66bd63, Hexa6d96a, Hexd9ef8b, Hexfee08b, Hexfdae61, Hexf46d43, Hexd73027, Hex67000d]

  function CalcColor3(v: Num): Colour {
    if AtLeast(v, 100.0) then Hex67000d
    else if AtLeast(v, 75.0) then Hexa6d96a
    else if AtLeast(v, 50.0) then Hexef3b2c
    else if AtLeast(v, 25.0) then Hexfb6a4a
    else if AtLeast(v, 10.0) then Hexfee0d2
    else Hexfff5f0
  }

  function CalcColorChange3(v: Num): Colour {
    if AtLeast(v, 50.0) then Hex66bd63
    else if AtLeast(v, 25.0) then Hexa6d96a
    else if AtLeast(v, 10.0) then Hexd9ef8b
    else if AtLeast(v, 0.0) then Hexfee08b
    else if AtLeast(v, -10.0) then Hexfdae61
    else if AtLeast(v, -25.0) then Hexf46d43
    else if AtLeast(v, -50.0) then Hexd73027
    else Hex67000d
  }

  function CalcColorPctChange3(v: Num): Colour {
    if AtLeast(v, 50.0) then Hex66bd63
    else if AtLeast(v, 25.0) then Hexa6d96a
    else if AtLeast(v, 10.0) then Hexd9ef8b
    else if AtLeast(v, 0.0) then Hexfee08b
    else if AtLeast(v, -10.0) then Hexfdae61
    else if AtLeast(v, -25.0) then Hexf46d43
    else if AtLeast(v, -50.0) then Hexd73027
    else Hex67000d
  }

  /** `calcColor` keeps the six buckets over 100/75/50/25/10 of the later
      scripts, with this script's palette. */
  lemma CalcColorBucket3(v: Num)
    ensures CalcColor3(v) == AbsolutePalette3[Rank(AbsoluteThresholds, v)]
  {
    var ts := AbsoluteThresholds;
    ThresholdsDescending();
    if AtLeast(v, 100.0) { RankIs(ts, v, 0); }
    else if AtLeast(v, 75.0) { RankIs(ts, v, 1); }
    else if AtLeast(v, 50.0) { RankIs(ts, v, 2); }
    else if AtLeast(v, 25.0) { RankIs(ts, v, 3); }
    else if AtLeast(v, 10.0) { RankIs(ts, v, 4); }
    else { RankIs(ts, v, 5); }
  }

  /** `calcColorChange` is the step function over 50..-50 with this
      script's eight-colour palette. */
  lemma ChangeBucket3(u: Num)
    ensures CalcColorChange3(u) == ChangePalette3[Rank(ChangeThresholds, u)]
  {
    var ts := ChangeThresholds;
    ThresholdsDescending();
    if AtLeast(u, 50.0) { RankIs(ts, u, 0); }
    else if AtLeast(u, 25.0) { RankIs(ts, u, 1); }
    else if AtLeast(u, 10.0) { RankIs(ts, u, 2); }
    else if AtLeast(u, 0.0) { RankIs(ts, u, 3); }
    else if AtLeast(u, -10.0) { RankIs(ts, u, 4); }
    else if AtLeast(u, -25.0) { RankIs(ts, u, 5); }
    else if AtLeast(u, -50.0) { RankIs(ts, u, 6); }
    else { RankIs(ts, u, 7); }
  }

  /** The two change scales are one and the same function, a step function
      over 50..-50 into eight distinct colours: two values share a colour
      exactly when they share a bucket. */
  lemma ChangeScales3(v: Num, w: Num)
    ensures CalcColorChange3(v) == CalcColorPctChange3(v)
    ensures CalcColorChange3(v) == ChangePalette3[Rank(ChangeThresholds, v)]
    ensures CalcColorChange3(v) == CalcColorChange3(w) <==> Rank(ChangeThresholds, v) == Rank(ChangeThresholds, w)
  {
    SameChains3(v);
    ChangeBucket3(v);
    ChangeBucket3(w);
    Palette3Distinct(Rank(ChangeThresholds, v), Rank(ChangeThresholds, w));
  }

  lemma SameChains3(u: Num)
    ensures CalcColorChange3(u) == CalcColorPctChange3(u)
  {
  }

  lemma Palette3Distinct(i: nat, j: nat)
    requires i < |ChangePalette3| && j < |ChangePalette3|
    ensures ChangePalette3[i] == ChangePalette3[j] <==> i == j
  {
  }

  // ---------------------------------------------------------------------
  // Change of reversed sign

  /** `histAvg - curVal`: positive when the city got cleaner. */
  function ChangeValue(f: Feature, key: string): (c: Num)
    ensures Value(f, key).Fin? && Baseline(f).Fin? ==>
              c.Fin? && c.r + Value(f, key).r == Baseline(f).r
    ensures key !in f.props || Baseline(f).NaN? ==> c.NaN?
  {
    Sub(Baseline(f), Value(f, key))
  }

  /** The sign is the opposite of the later scripts' change. */
  lemma ChangeReversed(f: Feature, key: string)
    ensures ChangeValue(f, key) == Neg(Metrics.Change(Value(f, key), Baseline(f)))
  {
  }

  /** The style of one city: radius and absolute colour of the reversed change. */
  function StyleOf(f: Feature, key: string): Style {
    var c := ChangeValue(f, key);
    Style(PropArea(c), CalcColor3(c))
  }

  /** On the absolute scale a city whose pollution rose (or fell by less than
      10) is drawn in the lightest colour, like one that barely changed. */
  lemma IncreaseLooksLikeNoChange(f: Feature, key: string)
    requires key in f.props && Baseline(f).Fin?
    requires f.props[key] > Baseline(f).r - 10.0
    ensures StyleOf(f, key).fill == Hexfff5f0
  {
  }

  /** `createPropSymbols`: every city gets a marker sized and coloured by
      its 1998 baseline minus its 1998 value, with no truthiness guard. */
  function CreatePropSymbols(features: seq<Feature>): (out: seq<Layer>)
    ensures |out| == |features|
    ensures forall i :: 0 <= i < |features| ==>
              out[i] == Marker(features[i], StyleOf(features[i], Attributes[0]))
  {
    CreateMarkers(features, f => StyleOf(f, Attributes[0]))
  }

  /** The first symbols use baseline - ppm_1998 for both size and colour. */
  lemma InitialStyleIsReversedChange(features: seq<Feature>)
    ensures forall i :: 0 <= i < |features| && "ppm_1998" in features[i].props && Baseline(features[i]).Fin? ==>
              var f, c := features[i], Baseline(features[i]).r - features[i].props["ppm_1998"];
              CreatePropSymbols(features)[i]
              == Marker(f, Style(Fin(AreaOf(c)), AbsolutePalette3[Rank(AbsoluteThresholds, Fin(c))]))
  {
    assert Attributes[0] == "ppm_1998";
    forall i | 0 <= i < |features| && "ppm_1998" in features[i].props && Baseline(features[i]).Fin? {
      CalcColorBucket3(ChangeValue(features[i], "ppm_1998"));
    }
  }

  /** `updatePropSymbols(map, attribute)`: no mode; every selected marker is
      restyled from its reversed change, the rest left alone. */
  function UpdatePropSymbols(layers: seq<Layer>, key: string): (out: seq<Layer>)
    ensures |out| == |layers|
    ensures forall i :: 0 <= i < |layers| && Selected(layers[i], key) ==>
              out[i] == layers[i].(style := StyleOf(layers[i].feature, key))
    ensures forall i :: 0 <= i < |layers| && !Selected(layers[i], key) ==> out[i] == layers[i]
  {
    Restyle(layers, key, f => StyleOf(f, key))
  }

  // ---------------------------------------------------------------------
  // Buttons

  /** The `.skip` handler of `createSequenceControls`: the new slider index
      and the layers after it. Only the two year buttons carry that class. */
  function SkipClick(index: YearIndex, layers: seq<Layer>, forward: bool): (r: (YearIndex, seq<Layer>))
    ensures r.0 == (if forward then (index + 1) % (LastIndex + 1) else (index + LastIndex) % (LastIndex + 1))
    ensures r.1 == UpdatePropSymbols(layers, Attributes[r.0])
  {
    var next := if forward then Forward(index) else Reverse(index);
    (next, UpdatePropSymbols(layers, Attributes[next]))
  }

  /** The year buttons wrap: next from 2019 shows 1998, previous from 1998
      shows 2019. */
  lemma SkipWraps(layers: seq<Layer>)
    ensures SkipClick(LastIndex, layers, true).0 == 0
    ensures SkipClick(0, layers, false).0 == LastIndex
  {
  }

  predicate IsDigit(c: char) {
    '0' <= c <= '9'
  }

  function DigitValue(c: char): (d: int)
    requires IsDigit(c)
    ensures 0 <= d <= 9
  {
    c as int - '0' as int
  }

  /** `attributes[viztype]` with a name such as "ppm_viz": the attribute
      array has no element under a name that is not a decimal index, so the
      lookup gives `undefined`, which is the key "undefined" once used on a
      feature's properties. */
  function AttributeByName(name: string): (key: string)
    ensures (exists c :: c in name && !IsDigit(c)) ==> key == UndefinedKey
    ensures |name| == 1 && IsDigit(name[0]) ==> key == Attributes[DigitValue(name[0])]
  {
    if |name| == 1 && IsDigit(name[0]) then Attributes[DigitValue(name[0])]
    else if |name| == 2 && IsDigit(name[0]) && IsDigit(name[1]) && name[0] != '0'
            && DigitValue(name[0]) * 10 + DigitValue(name[1]) <= LastIndex
    then Attributes[DigitValue(name[0]) * 10 + DigitValue(name[1])]
    else UndefinedKey
  }

  /** `updatePropSymbols(map, undefined)`: the first selected marker is
      restyled, then reading the year from the `undefined` attribute throws,
      which ends the pass. The flag says whether it threw. */
  function PassUntilThrow(layers: seq<Layer>, key: string): (r: (seq<Layer>, bool))
    ensures |r.0| == |layers|
    ensures r.1 <==> exists i :: 0 <= i < |layers| && Selected(layers[i], key)
    decreases |layers|
  {
    if |layers| == 0 then ([], false)
    else if Selected(layers[0], key) then
      ([layers[0].(style := StyleOf(layers[0].feature, key))] + layers[1..], true)
    else
      var (rest, threw) := PassUntilThrow(layers[1..], key);
      ([layers[0]] + rest, threw)
  }

  /** The pass that throws is the ordinary pass cut short: up to and
      including the first selected marker it restyles like
      `UpdatePropSymbols`; every later layer is left as it was. Without a
      selected marker nothing throws and nothing changes. */
  lemma {:induction false} PassUntilThrowStopsAtFirst(layers: seq<Layer>, key: string, k: int)
    requires 0 <= k < |layers| && Selected(layers[k], key)
    requires forall j :: 0 <= j < k ==> !Selected(layers[j], key)
    ensures PassUntilThrow(layers, key).0 == UpdatePropSymbols(layers[..k + 1], key) + layers[k + 1..]
    decreases |layers|
  {
    var (out, _) := PassUntilThrow(layers, key);
    var want := UpdatePropSymbols(layers[..k + 1], key) + layers[k + 1..];
    if k == 0 {
      assert out == want;
    } else {
      assert !Selected(layers[0], key);
      forall j | 0 <= j < k - 1
        ensures !Selected(layers[1..][j], key)
      {
        assert layers[1..][j] == layers[j + 1];
      }
      PassUntilThrowStopsAtFirst(layers[1..], key, k - 1);
      assert layers[1..][..k] == layers[1..k + 1];
      assert layers[1..][k..] == layers[k + 1..];
      assert out == want;
    }
  }

  lemma {:induction false} PassUntilThrowWithoutSelection(layers: seq<Layer>, key: string)
    requires forall j :: 0 <= j < |layers| ==> !Selected(layers[j], key)
    ensures PassUntilThrow(layers, key) == (layers, false)
    decreases |layers|
  {
    if |layers| > 0 {
      forall j | 0 <= j < |layers| - 1
        ensures !Selected(layers[1..][j], key)
      {
        assert layers[1..][j] == layers[j + 1];
      }
      PassUntilThrowWithoutSelection(layers[1..], key);
      assert [layers[0]] + layers[1..] == layers;
    }
  }

  /** The `.vis_select` handler: a known button id looks up a mode name in
      the attribute array and restyles under whatever it finds, until the
      pass throws. */
  function VizSelectClick(layers: seq<Layer>, id: string): (r: (seq<Layer>, bool))
    ensures id != "ppm" && id != "ppm_change" && id != "ppm_pctChange" ==> r == (layers, false)
    ensures id == "ppm" || id == "ppm_change" || id == "ppm_pctChange" ==>
              r == PassUntilThrow(layers, UndefinedKey)
  {
    if id == "ppm" then PassUntilThrow(layers, AttributeByName("ppm_viz"))
    else if id == "ppm_change" then PassUntilThrow(layers, AttributeByName("ppmChange_viz"))
    else if id == "ppm_pctChange" then PassUntilThrow(layers, AttributeByName("ppmPctChange_viz"))
    else (layers, false)
  }

  /** The mode buttons do nothing: no city carries a property named
      "undefined", so no marker is selected, nothing throws, and every layer
      is unchanged. */
  lemma VizSelectIsNoOp(layers: seq<Layer>, id: string)
    requires forall i :: 0 <= i < |layers| && layers[i].Marker? ==> UndefinedKey !in layers[i].feature.props
    ensures VizSelectClick(layers, id) == (layers, false)
  {
    PassUntilThrowWithoutSelection(layers, UndefinedKey);
  }
}
