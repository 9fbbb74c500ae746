/** The feature symbol store: the map's layers, and the in-place restyle
    pass `map.eachLayer(...)` that every variant's `updatePropSymbols` runs. */
module Symbols {
  import opened JsNumber
  import opened Encoder
  import opened Metrics

  /** A marker's style. The radius Leaflet draws is sqrt(area / PI). */
  datatype Style = Style(area: Num, fill: Colour)

  /** A layer of the map: a circle marker bound to its feature, or any other
      layer (the tile layer, the GeoJSON group), which has no feature. */
  datatype Layer = Other | Marker(feature: Feature, style: Style)

  /** The layers `updatePropSymbols` touches under `key`. */
  predicate Selected(l: Layer, key: string) {
    l.Marker? && Truthy(l.feature, key)
  }

  /** One layer after the pass: restyled from its own feature when selected. */
  function Touch(l: Layer, key: string, styleOf: Feature -> Style): Layer {
    if Selected(l, key) then l.(style := styleOf(l.feature)) else l
  }

  /** `map.eachLayer`: the selected markers get the style their own feature
      yields; every other layer, and every marker's feature, stays as it was. */
  function Restyle(layers: seq<Layer>, key: string, styleOf: Feature -> Style): (out: seq<Layer>)
    ensures |out| == |layers|
    ensures forall i :: 0 <= i < |layers| ==> out[i].Marker? == layers[i].Marker?
    ensures forall i :: 0 <= i < |layers| && layers[i].Marker? ==>
              out[i].feature == layers[i].feature
    ensures forall i :: 0 <= i < |layers| && Selected(layers[i], key) ==>
              out[i].style == styleOf(layers[i].feature)
    ensures forall i :: 0 <= i < |layers| && !Selected(layers[i], key) ==> out[i] == layers[i]
  {
    if |layers| == 0 then []
    else [Touch(layers[0], key, styleOf)] + Restyle(layers[1..], key, styleOf)
  }

  /** Re-running the pass with the same key and styling changes nothing. */
  lemma RestyleIdempotent(layers: seq<Layer>, key: string, styleOf: Feature -> Style)
    ensures Restyle(Restyle(layers, key, styleOf), key, styleOf) == Restyle(layers, key, styleOf)
  {
    RestyleLastWins(layers, key, styleOf, styleOf);
  }

  /** Two passes over the same key: the second one decides every style. */
  lemma RestyleLastWins(layers: seq<Layer>, key: string, first: Feature -> Style, second: Feature -> Style)
    ensures Restyle(Restyle(layers, key, first), key, second) == Restyle(layers, key, second)
  {
    var mid := Restyle(layers, key, first);
    var a := Restyle(mid, key, second);
    var b := Restyle(layers, key, second);
    forall i | 0 <= i < |layers|
      ensures a[i] == b[i]
    {
      assert Selected(mid[i], key) == Selected(layers[i], key);
    }
  }

  /** The markers of `createPropSymbols`: one per feature, in order, each
      styled from its own feature. */
  function CreateMarkers(features: seq<Feature>, styleOf: Feature -> Style): (out: seq<Layer>)
    ensures |out| == |features|
    ensures forall i :: 0 <= i < |features| ==>
              out[i] == Marker(features[i], styleOf(features[i]))
  {
    if |features| == 0 then []
    else [Marker(features[0], styleOf(features[0]))] + CreateMarkers(features[1..], styleOf)
  }
}
