/** The visualisation controller of js/main-4.js and js/main-2.js (the two
    files agree on everything modelled here): the mode dispatch of
    `updatePropSymbols`, the mode buttons of `selectVizType`, the year
    buttons and slider of `manageSequence`, and the first rendering. */
module Controller {
  import opened JsNumber
  import opened Encoder
  import opened Metrics
  import opened Stepper
  import opened Symbols

  datatype Option<T> = None | Some(value: T)

  /** The three visualisations, named "ppm_viz", "ppm_change" and
      "ppm_pctChange" in the scripts. */
  datatype Mode = Absolute | ChangeFromBaseline | PercentChangeFromBaseline

  function ModeName(m: Mode): string {
    match m
    case Absolute => "ppm_viz"
    case ChangeFromBaseline => "ppm_change"
    case PercentChangeFromBaseline => "ppm_pctChange"
  }

  /** The click handler of the `.vis_select` buttons: button id to mode. */
  function ModeOfButton(id: string): (m: Option<Mode>)
    ensures m.Some? <==> id == "ppm" || id == "ppm_change" || id == "ppm_pctChange"
    ensures m.Some? ==> ModeName(m.value) == (if id == "ppm" then "ppm_viz" else id)
  {
    if id == "ppm" then Some(Absolute)
    else if id == "ppm_change" then Some(ChangeFromBaseline)
    else if id == "ppm_pctChange" then Some(PercentChangeFromBaseline)
    else None
  }

  /** Every mode has exactly one button. */
  lemma ButtonsCoverModes(m: Mode)
    ensures exists id :: ModeOfButton(id) == Some(m)
    ensures forall id, id' :: ModeOfButton(id) == Some(m) && ModeOfButton(id') == Some(m) ==> id == id'
  {
    match m
    case Absolute => assert ModeOfButton("ppm") == Some(m);
    case ChangeFromBaseline => assert ModeOfButton("ppm_change") == Some(m);
    case PercentChangeFromBaseline => assert ModeOfButton("ppm_pctChange") == Some(m);
  }

  // ---------------------------------------------------------------------
  // updatePropSymbols

  /** The value that feeds both the radius and the colour in a mode. */
  function ActiveValue(f: Feature, key: string, mode: Mode): Num {
    var cur := Value(f, key);
    var base := Baseline(f);
    match mode
    case Absolute => cur
    case ChangeFromBaseline => Change(cur, base)
    case PercentChangeFromBaseline => PctChange(cur, base)
  }

  function ColourFor(mode: Mode, v: Num): Colour {
    match mode
    case Absolute => CalcColor(v)
    case ChangeFromBaseline => CalcColorChange(v)
    case PercentChangeFromBaseline => CalcColorPctChange(v)
  }

  function StyleFor(f: Feature, key: string, mode: Mode): Style {
    var v := ActiveValue(f, key, mode);
    Style(PropArea(v), ColourFor(mode, v))
  }

  /** One pass of `updatePropSymbols(map, attribute, viztype)`. */
  function UpdatePropSymbols(layers: seq<Layer>, key: string, mode: Mode): (out: seq<Layer>)
    ensures |out| == |layers|
    ensures forall i :: 0 <= i < |layers| && Selected(layers[i], key) ==>
              out[i] == layers[i].(style := StyleFor(layers[i].feature, key, mode))
    ensures forall i :: 0 <= i < |layers| && !Selected(layers[i], key) ==> out[i] == layers[i]
  {
    Restyle(layers, key, f => StyleFor(f, key, mode))
  }

  /** The mode dispatch, spelled out in terms of the city's own numbers. In
      every mode the area is five times the magnitude of the active value,
      and the colour is the bucket of that same value on the mode's scale.
      "ppm_viz": the current value on the absolute scale. */
  lemma AbsoluteStyle(f: Feature, key: string)
    requires key in f.props
    ensures var cur := f.props[key];
            StyleFor(f, key, Absolute)
            == Style(Fin(AreaOf(cur)), AbsolutePalette[Rank(AbsoluteThresholds, Fin(cur))])
  {
    CalcColorBucket(Fin(f.props[key]));
  }

  /** "ppm_change": current value minus baseline, on the change scale. */
  lemma ChangeStyle(f: Feature, key: string)
    requires key in f.props && Baseline(f).Fin?
    ensures var d := f.props[key] - Baseline(f).r;
            StyleFor(f, key, ChangeFromBaseline)
            == Style(Fin(AreaOf(d)), ChangePalette[Rank(ChangeThresholds, Fin(d))])
  {
    CalcColorChangeBucket(ActiveValue(f, key, ChangeFromBaseline));
  }

  /** "ppm_pctChange": the relative change in percent, on the percent scale. */
  lemma PctChangeStyle(f: Feature, key: string)
    requires key in f.props && Baseline(f).Fin? && Baseline(f).r != 0.0
    ensures var base := Baseline(f).r;
            var pct := (f.props[key] - base) / base * 100.0;
            StyleFor(f, key, PercentChangeFromBaseline)
            == Style(Fin(AreaOf(pct)), PctChangePalette[Rank(ChangeThresholds, Fin(pct))])
  {
    PctChangeIsRelative(f.props[key], Baseline(f).r);
    CalcColorPctChangeBucket(ActiveValue(f, key, PercentChangeFromBaseline));
  }

  /** A city missing a base year gets a NaN size and the bottom colour of
      either change scale. */
  lemma MissingBaselineStyle(f: Feature, key: string, mode: Mode)
    requires Baseline(f).NaN? && mode != Absolute
    ensures StyleFor(f, key, mode) == Style(NaN, Hex66bd63)
  {
  }

  // ---------------------------------------------------------------------
  // The controller state machine

  /** The slider position and the selected visualisation. */
  datatype State = State(index: YearIndex, mode: Mode)

  const Start: State := State(0, Absolute)

  /** A click on a `.skip` button (by id), a click on the slider, or a click
      on a `.vis_select` button (by id). */
  datatype Event = Skip(id: string) | Slide(to: YearIndex) | VizSelect(id: string)

  /** Whether the handler for `e` calls `updatePropSymbols`. The year label
      is itself a `.skip` button; clicking it moves nothing. */
  predicate Rerenders(e: Event) {
    match e
    case Skip(id) => id == "forward" || id == "reverse"
    case Slide(_) => true
    case VizSelect(id) => ModeOfButton(id).Some?
  }

  function Next(s: State, e: Event): (t: State)
    ensures e.VizSelect? ==> t.index == s.index
    ensures !e.VizSelect? ==> t.mode == s.mode
    ensures !Rerenders(e) ==> t == s
  {
    match e
    case Skip(id) =>
      if id == "forward" then s.(index := Forward(s.index))
      else if id == "reverse" then s.(index := Reverse(s.index))
      else s
    case Slide(to) => s.(index := to)
    case VizSelect(id) =>
      match ModeOfButton(id)
      case Some(m) => s.(mode := m)
      case None => s
  }

  /** Every marker drawn for the state: `updatePropSymbols` at the slider's
      attribute under the state's mode. */
  function Render(layers: seq<Layer>, s: State): seq<Layer> {
    UpdatePropSymbols(layers, Attributes[s.index], s.mode)
  }

  /** A marker agrees with the state: its style is the one the state asks for. */
  predicate Current(l: Layer, s: State) {
    l.Marker? ==> l.style == StyleFor(l.feature, Attributes[s.index], s.mode)
  }

  /** One UI event: the new state and the layers after its handler. */
  function Handle(s: State, layers: seq<Layer>, e: Event): (r: (State, seq<Layer>))
    ensures r.0 == Next(s, e)
    ensures |r.1| == |layers|
    ensures Rerenders(e) ==> forall i :: 0 <= i < |layers| && Selected(layers[i], Attributes[r.0.index]) ==>
              r.1[i].Marker? && r.1[i].feature == layers[i].feature && Current(r.1[i], r.0)
    ensures forall i :: 0 <= i < |layers| && !Selected(layers[i], Attributes[r.0.index]) ==> r.1[i] == layers[i]
    ensures !Rerenders(e) ==> r.1 == layers
  {
    var t := Next(s, e);
    if Rerenders(e) then (t, Render(layers, t)) else (t, layers)
  }

  /** Forward from the last year lands on 1998, reverse from 1998 on 2019,
      and the mode never changes on a year button. */
  lemma YearButtonsWrap(m: Mode, layers: seq<Layer>)
    ensures Handle(State(LastIndex, m), layers, Skip("forward")).0 == State(0, m)
    ensures Handle(State(0, m), layers, Skip("reverse")).0 == State(LastIndex, m)
    ensures Handle(State(0, m), layers, Skip("curr_year")) == (State(0, m), layers)
  {
  }

  /** Choosing the same slider position twice draws the same symbols as
      choosing it once. */
  lemma SlideIdempotent(s: State, layers: seq<Layer>, i: YearIndex)
    ensures var (s1, l1) := Handle(s, layers, Slide(i));
            Handle(s1, l1, Slide(i)) == (s1, l1)
  {
    var (s1, l1) := Handle(s, layers, Slide(i));
    RestyleIdempotent(layers, Attributes[i], f => StyleFor(f, Attributes[i], s1.mode));
  }

  /** A mode button re-renders at the current slider index: the year stays,
      and the result is the new mode's rendering whatever mode was drawn before. */
  lemma ModeSwitchKeepsYear(s: State, layers: seq<Layer>, id: string, m: Mode)
    requires ModeOfButton(id) == Some(m)
    ensures Handle(s, layers, VizSelect(id)).0 == State(s.index, m)
    ensures Handle(s, Render(layers, s), VizSelect(id)).1 == Render(layers, State(s.index, m))
  {
    var key := Attributes[s.index];
    RestyleLastWins(layers, key, f => StyleFor(f, key, s.mode), f => StyleFor(f, key, m));
  }

  // ---------------------------------------------------------------------
  // Slider handlers

  /** The slider's click handlers are bound again by every mode switch and
      never unbound, so a slider click runs one pass per mode chosen so far,
      in the order the modes were chosen. */
  function SliderClick(layers: seq<Layer>, key: string, bound: seq<Mode>): seq<Layer>
    decreases |bound|
  {
    if |bound| == 0 then layers
    else SliderClick(UpdatePropSymbols(layers, key, bound[0]), key, bound[1..])
  }

  /** The pile-up is harmless: the last mode chosen decides every symbol. */
  lemma {:induction false} SliderClickLastWins(layers: seq<Layer>, key: string, bound: seq<Mode>)
    requires |bound| > 0
    ensures SliderClick(layers, key, bound) == UpdatePropSymbols(layers, key, bound[|bound| - 1])
    decreases |bound|
  {
    if |bound| > 1 {
      var first := UpdatePropSymbols(layers, key, bound[0]);
      SliderClickLastWins(first, key, bound[1..]);
      assert bound[1..][|bound[1..]| - 1] == bound[|bound| - 1];
      RestyleLastWins(layers, key, f => StyleFor(f, key, bound[0]),
                      f => StyleFor(f, key, bound[|bound| - 1]));
    }
  }

  /** The modes of the slider handlers bound so far, in binding order: the
      load binds "ppm_viz", and each mode button binds its own mode. */
  const StartBound: seq<Mode> := [Absolute]

  function BoundAfter(bound: seq<Mode>, e: Event): seq<Mode> {
    if e.VizSelect? && ModeOfButton(e.id).Some? then bound + [ModeOfButton(e.id).value]
    else bound
  }

  /** The last slider handler bound runs the mode the state records. */
  predicate HandlersAgree(bound: seq<Mode>, s: State) {
    |bound| > 0 && bound[|bound| - 1] == s.mode
  }

  /** Every event keeps the last bound handler in step with the state. */
  lemma BoundTracksMode(s: State, bound: seq<Mode>, e: Event)
    requires HandlersAgree(bound, s)
    ensures HandlersAgree(BoundAfter(bound, e), Next(s, e))
  {
  }

  /** With the handlers in step, the whole pile of slider handlers draws what
      `Handle` draws for the slider click. */
  lemma SlideRunsBoundHandlers(s: State, bound: seq<Mode>, layers: seq<Layer>, i: YearIndex)
    requires HandlersAgree(bound, s)
    ensures Handle(s, layers, Slide(i)).1 == SliderClick(layers, Attributes[i], bound)
  {
    SliderClickLastWins(layers, Attributes[i], bound);
  }

  /** One event on the page as the handlers run it: a slider click runs
      every bound handler in turn; the other events run their one handler,
      and a mode button binds one more slider handler. */
  function PageStep(s: State, bound: seq<Mode>, layers: seq<Layer>, e: Event): (State, seq<Mode>, seq<Layer>) {
    match e
    case Slide(i) => (Next(s, e), bound, SliderClick(layers, Attributes[i], bound))
    case _ => (Next(s, e), BoundAfter(bound, e), Handle(s, layers, e).1)
  }

  /** A sequence of events on the page. */
  function RunPage(s: State, bound: seq<Mode>, layers: seq<Layer>, events: seq<Event>): (State, seq<Mode>, seq<Layer>)
    decreases |events|
  {
    if |events| == 0 then (s, bound, layers)
    else
      var (t, b, l) := PageStep(s, bound, layers, events[0]);
      RunPage(t, b, l, events[1..])
  }

  /** The same sequence of events under the state machine. */
  function Run(s: State, layers: seq<Layer>, events: seq<Event>): (State, seq<Layer>)
    decreases |events|
  {
    if |events| == 0 then (s, layers)
    else
      var (t, l) := Handle(s, layers, events[0]);
      Run(t, l, events[1..])
  }

  /** The state machine is faithful to the page: from handlers in step with
      the state, any sequence of events leads to the same state and the
      same symbols, and leaves the handlers in step. */
  lemma {:induction false} PageMatchesModel(s: State, bound: seq<Mode>, layers: seq<Layer>, events: seq<Event>)
    requires HandlersAgree(bound, s)
    ensures var (t, b, l) := RunPage(s, bound, layers, events);
            (t, l) == Run(s, layers, events) && HandlersAgree(b, t)
    decreases |events|
  {
    if |events| > 0 {
      var e := events[0];
      BoundTracksMode(s, bound, e);
      if e.Slide? {
        SlideRunsBoundHandlers(s, bound, layers, e.to);
      }
      var (t, b, l) := PageStep(s, bound, layers, e);
      PageMatchesModel(t, b, l, events[1..]);
    }
  }

  // ---------------------------------------------------------------------
  // First rendering

  /** `createPropSymbols`: every city gets a marker styled from its 1998
      value, with no truthiness guard. */
  function CreatePropSymbols(features: seq<Feature>): seq<Layer> {
    CreateMarkers(features, f => Style(PropArea(Value(f, Attributes[0])), CalcColor(Value(f, Attributes[0]))))
  }

  /** After loading, `createPropSymbols` and the first `manageSequence` leave
      every marker in agreement with the start state (1998, absolute). */
  lemma StartIsConsistent(features: seq<Feature>)
    ensures var layers := Render(CreatePropSymbols(features), Start);
            |layers| == |features| && HandlersAgree(StartBound, Start)
            && forall i :: 0 <= i < |layers| ==>
                 layers[i].Marker? && layers[i].feature == features[i] && Current(layers[i], Start)
  {
  }
}
