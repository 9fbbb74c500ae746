/** The metric transform: a city's value for the selected year, its
    1998-2000 baseline, and the change and percent change from it, computed
    with JavaScript arithmetic exactly as the restyle passes write them. */
module Metrics {
  import opened JsNumber

  /** A city of the feature collection. The point geometry is not modelled;
      `props` holds the numeric `ppm_<year>` properties it carries. */
  datatype Feature = Feature(city: string, country: string, props: map<string, real>)

  /** The attribute keys, one per year from 1998 to 2019; the slider index
      selects one of them. */
  const Attributes: seq<string> := [
    "ppm_1998", "ppm_1999", "ppm_2000", "ppm_2001", "ppm_2002", "ppm_2003",
    "ppm_2004", "ppm_2005", "ppm_2006", "ppm_2007", "ppm_2008", "ppm_2009",
    "ppm_2010", "ppm_2011", "ppm_2012", "ppm_2013", "ppm_2014", "ppm_2015",
    "ppm_2016", "ppm_2017", "ppm_2018", "ppm_2019"]

  /** What a JavaScript `undefined` turns into when used as a property key. */
  const UndefinedKey: string := "undefined"

  /** `props[key]` read as a number: NaN when the property is absent. */
  function Value(f: Feature, key: string): (v: Num)
    ensures v.Fin? <==> key in f.props
    ensures !v.PosInf? && !v.NegInf?
  {
    if key in f.props then Fin(f.props[key]) else NaN
  }

  /** The guard `layer.feature.properties[attribute]`: the value is present
      and not zero (JSON numbers are never NaN). */
  predicate Truthy(f: Feature, key: string) {
    key in f.props && f.props[key] != 0.0
  }

  /** `(props['ppm_1998'] + props['ppm_1999'] + props['ppm_2000']) / 3`. */
  function Baseline(f: Feature): (b: Num)
    ensures b.Fin? <==> "ppm_1998" in f.props && "ppm_1999" in f.props && "ppm_2000" in f.props
    ensures !b.Fin? ==> b.NaN?
    ensures b.Fin? ==> 3.0 * b.r == f.props["ppm_1998"] + f.props["ppm_1999"] + f.props["ppm_2000"]
  {
    Div(Add(Add(Value(f, "ppm_1998"), Value(f, "ppm_1999")), Value(f, "ppm_2000")), Fin(3.0))
  }

  /** The baseline is a mean: it lies between the smallest and the largest of
      the three base-year values. */
  lemma BaselineBetween(f: Feature)
    requires Baseline(f).Fin?
    ensures var a, b, c := f.props["ppm_1998"], f.props["ppm_1999"], f.props["ppm_2000"];
            var m := Baseline(f).r;
            (m >= a || m >= b || m >= c) && (m <= a || m <= b || m <= c)
            && (a == b == c ==> m == a)
  {
  }

  /** `chgVal = curVal - histAvg` of js/main-2.js and js/main-4.js. */
  function Change(cur: Num, base: Num): (c: Num)
    ensures cur.Fin? && base.Fin? ==> c.Fin? && c.r + base.r == cur.r
    ensures cur.NaN? || base.NaN? ==> c.NaN?
  {
    Sub(cur, base)
  }

  /** `pctChgVal = (histAvg - curVal) / histAvg * -100`. */
  function PctChange(cur: Num, base: Num): Num {
    Mul(Div(Sub(base, cur), base), Fin(-100.0))
  }

  lemma DivNegate(x: real, b: real)
    requires b != 0.0
    ensures (-x) / b == -(x / b)
  {
    assert (x / b) * b == x;
    assert (-(x / b)) * b == -x;
  }

  /** With a finite non-zero baseline the reversed-sign formula is the usual
      relative change in percent: positive means an increase. */
  lemma PctChangeIsRelative(cur: real, base: real)
    requires base != 0.0
    ensures PctChange(Fin(cur), Fin(base)) == Fin((cur - base) / base * 100.0)
    ensures PctChange(Fin(cur), Fin(base)) == Fin(Change(Fin(cur), Fin(base)).r / base * 100.0)
    ensures cur > base <==> PctChange(Fin(cur), Fin(base)).r * base > 0.0
    ensures base > 0.0 ==> (cur > base <==> PctChange(Fin(cur), Fin(base)).r > 0.0)
    ensures base < 0.0 ==> (cur > base <==> PctChange(Fin(cur), Fin(base)).r < 0.0)
  {
    DivNegate(cur - base, base);
    if base > 0.0 {
      assert cur > base <==> (cur - base) / base > 0.0;
    } else {
      assert cur > base <==> (cur - base) / base < 0.0;
    }
  }

  /** The division is not guarded: a zero baseline gives +Infinity for a
      positive value, -Infinity for a negative one; a missing base year
      gives NaN in every derived value. */
  lemma UnguardedBaseline(cur: real)
    ensures cur > 0.0 ==> PctChange(Fin(cur), Fin(0.0)) == PosInf
    ensures cur < 0.0 ==> PctChange(Fin(cur), Fin(0.0)) == NegInf
    ensures PctChange(Fin(cur), NaN) == NaN && Change(Fin(cur), NaN) == NaN
  {
    if cur > 0.0 {
      assert Div(Sub(Fin(0.0), Fin(cur)), Fin(0.0)) == NegInf;
    } else if cur < 0.0 {
      assert Div(Sub(Fin(0.0), Fin(cur)), Fin(0.0)) == PosInf;
    }
  }

  /** A city with 50, 60 and 70 in the base years and 80 in 2005: baseline
      60, change 20, percent change 100/3. */
  lemma WorkedExample()
    ensures var f := Feature("c", "k", map["ppm_1998" := 50.0, "ppm_1999" := 60.0,
                                         "ppm_2000" := 70.0, "ppm_2005" := 80.0]);
            && Baseline(f) == Fin(60.0)
            && Change(Value(f, Attributes[7]), Baseline(f)) == Fin(20.0)
            && PctChange(Value(f, Attributes[7]), Baseline(f)) == Fin(100.0 / 3.0)
  {
    var f := Feature("c", "k", map["ppm_1998" := 50.0, "ppm_1999" := 60.0,
                                   "ppm_2000" := 70.0, "ppm_2005" := 80.0]);
    assert Attributes[7] == "ppm_2005";
    assert Baseline(f) == Fin(60.0);
  }
}
