/**
 * The star field: three star layers stacked for a parallax depth effect. The
 * far layer has many small, slow stars; each nearer layer has fewer, larger
 * stars and a longer loop.
 */
module StarField {
  import opened Text
  import opened StarPattern
  import opened StarLayer

  /** The props of one `<StarLayer />` element. */
  datatype LayerConfig = LayerConfig(count: int, size: int, animationDuration: int)

  /** The layers the field renders, in document order. */
  const Layers: seq<LayerConfig> := [
    LayerConfig(300, 1, 50),
    LayerConfig(150, 2, 100),
    LayerConfig(80, 3, 150)
  ]

  /** Count falls while star size and loop duration rise, layer after layer. */
  predicate DepthOrdered(cs: seq<LayerConfig>) {
    forall i, j :: 0 <= i < j < |cs| ==>
      cs[i].count > cs[j].count &&
      cs[i].size < cs[j].size &&
      cs[i].animationDuration < cs[j].animationDuration
  }

  predicate Positive(c: LayerConfig) {
    c.count > 0 && c.size > 0 && c.animationDuration > 0
  }

  lemma LayersAreDepthOrdered()
    ensures |Layers| == 3 && DepthOrdered(Layers)
    ensures forall i :: 0 <= i < |Layers| ==> Positive(Layers[i])
  {
  }

  /** The layer the field renders for configuration `c` and draws `d`. */
  function LayerFor(c: LayerConfig, d: seq<real>): Layer
    requires 2 * c.count <= |d|
  {
    Styles(c.size, c.animationDuration, Serialise(Pattern(c.count, CanvasWidth, CanvasHeight, d)))
  }

  /**
   * `StarField`: render the three layers, each with its own draws (each
   * `StarLayer` calls the generator for itself; the layers share nothing).
   */
  method RenderStarField(draws: seq<seq<real>>) returns (layers: seq<Layer>)
    requires |draws| == |Layers|
    requires forall i :: 0 <= i < |Layers| ==> 2 * Layers[i].count <= |draws[i]|
    ensures |layers| == |Layers|
    ensures forall i :: 0 <= i < |Layers| ==> layers[i] == LayerFor(Layers[i], draws[i])
  {
    var far := RenderStarLayer(300, 1, 50, draws[0]);
    var middle := RenderStarLayer(150, 2, 100, draws[1]);
    var near := RenderStarLayer(80, 3, 150, draws[2]);
    layers := [far, middle, near];
    assert far == LayerFor(Layers[0], draws[0]);
    assert middle == LayerFor(Layers[1], draws[1]);
    assert near == LayerFor(Layers[2], draws[2]);
    forall i | 0 <= i < |Layers| ensures layers[i] == LayerFor(Layers[i], draws[i]) {
      if i == 0 {
      } else if i == 1 {
      } else {
        assert i == 2;
      }
    }
  }

  /** A layer with a positive count carries one shadow entry per star it draws. */
  lemma LayerShadow(c: LayerConfig, d: seq<real>)
    requires 0 < c.count && 2 * c.count <= |d|
    ensures |Split(LayerFor(c, d).style.boxShadow, Separator)| == c.count
    ensures Decode(LayerFor(c, d).style.boxShadow) ==
              Some(Pattern(c.count, CanvasWidth, CanvasHeight, d))
  {
    var p := Pattern(c.count, CanvasWidth, CanvasHeight, d);
    SerialisePieces(p);
    DecodeSerialise(p);
  }

  /**
   * What the rendered field holds: per layer, a shadow list of exactly that
   * layer's star count (300, 150, 80) which decodes to the layer's own
   * pattern, shared by both copies, with the duplicate one canvas height down.
   */
  lemma FieldLayers(draws: seq<seq<real>>, layers: seq<Layer>)
    requires |draws| == |Layers| && |layers| == |Layers|
    requires forall i :: 0 <= i < |Layers| ==> 2 * Layers[i].count <= |draws[i]|
    requires forall i :: 0 <= i < |Layers| ==> layers[i] == LayerFor(Layers[i], draws[i])
    ensures forall i :: 0 <= i < |Layers| ==>
              |Split(layers[i].style.boxShadow, Separator)| == Layers[i].count
    ensures |Split(layers[0].style.boxShadow, Separator)| == 300
    ensures |Split(layers[1].style.boxShadow, Separator)| == 150
    ensures |Split(layers[2].style.boxShadow, Separator)| == 80
    ensures forall i :: 0 <= i < |Layers| ==>
              Decode(layers[i].style.boxShadow) ==
                Some(Pattern(Layers[i].count, CanvasWidth, CanvasHeight, draws[i]))
    ensures forall i :: 0 <= i < |Layers| ==>
              layers[i].duplicate.top == CanvasHeight &&
              layers[i].duplicate.boxShadow == layers[i].style.boxShadow
  {
    LayersShadows(draws, layers);
    assert Layers[0].count == 300 && Layers[1].count == 150 && Layers[2].count == 80;
  }

  lemma LayersShadows(draws: seq<seq<real>>, layers: seq<Layer>)
    requires |draws| == |Layers| && |layers| == |Layers|
    requires forall i :: 0 <= i < |Layers| ==> 2 * Layers[i].count <= |draws[i]|
    requires forall i :: 0 <= i < |Layers| ==> layers[i] == LayerFor(Layers[i], draws[i])
    ensures forall i :: 0 <= i < |Layers| ==>
              |Split(layers[i].style.boxShadow, Separator)| == Layers[i].count
    ensures forall i :: 0 <= i < |Layers| ==>
              Decode(layers[i].style.boxShadow) ==
                Some(Pattern(Layers[i].count, CanvasWidth, CanvasHeight, draws[i]))
  {
    forall i | 0 <= i < |Layers|
      ensures |Split(layers[i].style.boxShadow, Separator)| == Layers[i].count
      ensures Decode(layers[i].style.boxShadow) ==
                Some(Pattern(Layers[i].count, CanvasWidth, CanvasHeight, draws[i]))
    {
      LayerShadow(Layers[i], draws[i]);
    }
  }
}
