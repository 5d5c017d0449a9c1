/**
 * One star layer: an absolutely positioned node of one star's size whose
 * `box-shadow` paints the whole pattern, scrolled by the `animStar`
 * animation, and a child node carrying the same shadows one canvas height
 * lower, so that the scroll wraps without a seam.
 */
module StarLayer {
  import opened Text
  import opened StarPattern

  /** The canvas size the layer hands to the generator. */
  const CanvasWidth: int := 2000
  const CanvasHeight: int := 2000

  /** The outer node's inline style (`style`). */
  datatype LayerStyle = LayerStyle(
    width: int,
    height: int,
    background: string,
    boxShadow: string,
    position: string,
    top: int,
    left: int,
    animation: string)

  /** The inner duplicate node's inline style (`afterStyle`). */
  datatype DuplicateStyle = DuplicateStyle(
    content: string,
    position: string,
    top: int,
    width: int,
    height: int,
    background: string,
    boxShadow: string)

  /** `<div style={style}><div style={afterStyle} /></div>` */
  datatype Layer = Layer(style: LayerStyle, duplicate: DuplicateStyle)

  /** The CSS animation shorthand `animStar ${duration}s linear infinite`. */
  function Animation(duration: int): (a: string)
    ensures "animStar " <= a
  {
    "animStar " + IntToString(duration) + "s linear infinite"
  }

  /**
   * The shorthand reads as four tokens: the keyframes name, the duration in
   * seconds, a linear timing function and an infinite iteration count.
   */
  lemma AnimationTokens(duration: int)
    ensures Split(Animation(duration), " ")
         == ["animStar", IntToString(duration) + "s", "linear", "infinite"]
  {
    var words := ["animStar", IntToString(duration) + "s", "linear", "infinite"];
    NumeralHasNoSeparator(duration);
    forall i | 0 <= i < |words| ensures ' ' !in words[i] {
    }
    AnimationSpelled(duration);
    JoinFour(words[0], words[1], words[2], words[3], " ");
    SplitJoin(words, " ");
  }

  lemma AnimationSpelled(duration: int)
    ensures Animation(duration)
         == "animStar" + " " + (IntToString(duration) + "s") + " " + "linear" + " " + "infinite"
  {
    var x := IntToString(duration);
    assert "animStar" + " " == "animStar ";
    assert "s" + " " + "linear" + " " + "infinite" == "s linear infinite";
  }

  /** The two style records built around one generated shadow list. */
  function Styles(size: int, duration: int, boxShadow: string): (l: Layer)
    ensures l.duplicate.top == CanvasHeight
    ensures l.style.top == 0 && l.style.left == 0
    ensures l.style.boxShadow == boxShadow && l.duplicate.boxShadow == boxShadow
    ensures l.style.width == l.style.height == size
    ensures l.duplicate.width == l.duplicate.height == size
    ensures l.style.animation == Animation(duration)
  {
    Layer(
      LayerStyle(
        width := size,
        height := size,
        background := "transparent",
        boxShadow := boxShadow,
        position := "absolute",
        top := 0,
        left := 0,
        animation := Animation(duration)),
      DuplicateStyle(
        content := "\"\"",
        position := "absolute",
        top := 2000,
        width := size,
        height := size,
        background := "transparent",
        boxShadow := boxShadow))
  }

  /**
   * Every star of the primary copy lies above the duplicate's offset and every
   * star of the duplicate copy at or below it: the two copies of one pattern
   * tile the strip of twice the canvas height without overlapping.
   */
  predicate SeamlessCopies(l: Layer, p: seq<Star>) {
    forall i :: 0 <= i < |p| ==>
      0 <= p[i].y < l.duplicate.top <= p[i].y + l.duplicate.top < 2 * l.duplicate.top
  }

  /**
   * The `StarLayer` component for one render: generate a fresh shadow list on
   * the canvas, then build both style records from it.
   */
  method RenderStarLayer(count: int, size: int, animationDuration: int, draws: seq<real>)
    returns (layer: Layer)
    requires 2 * count <= |draws|
    ensures layer == Styles(size, animationDuration,
                            Serialise(Pattern(count, CanvasWidth, CanvasHeight, draws)))
    ensures layer.duplicate.top == CanvasHeight
    ensures layer.style.boxShadow == layer.duplicate.boxShadow
    ensures Decode(layer.style.boxShadow) == Some(Pattern(count, CanvasWidth, CanvasHeight, draws))
    ensures ValidDraws(draws) ==>
              SeamlessCopies(layer, Pattern(count, CanvasWidth, CanvasHeight, draws))
  {
    var boxShadow := GenerateStarBoxShadow(count, CanvasWidth, CanvasHeight, draws);
    layer := Styles(size, animationDuration, boxShadow);
  }
}
