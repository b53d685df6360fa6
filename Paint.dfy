/** Colours, paint options and the colour rules of the doodler:
    palette inversion and the colour a stroke is rendered with.
    Channels, widths and alphas are exact reals standing for the
    source's Floats. */
module Paint {

  /** A colour with red, green, blue and alpha channels; in the source
      every channel lies in [0, 1]. */
  datatype Color = Color(red: real, green: real, blue: real, alpha: real)

  /** Every channel of `c` lies in [0, 1]. */
  predicate InGamut(c: Color) {
    && 0.0 <= c.red <= 1.0
    && 0.0 <= c.green <= 1.0
    && 0.0 <= c.blue <= 1.0
    && 0.0 <= c.alpha <= 1.0
  }

  /** The style a committed stroke keeps: colour, stroke width and the
      opacity chosen in the opacity picker. */
  datatype PaintOptions = PaintOptions(color: Color, strokeWidth: real, alpha: real)

  // The eight colours of the colour picker, fully opaque.
  const BLACK := Color(0.0, 0.0, 0.0, 1.0)
  const RED := Color(1.0, 0.0, 0.0, 1.0)
  const GREEN := Color(0.0, 1.0, 0.0, 1.0)
  const BLUE := Color(0.0, 0.0, 1.0, 1.0)
  const YELLOW := Color(1.0, 1.0, 0.0, 1.0)
  const MAGENTA := Color(1.0, 0.0, 1.0, 1.0)
  const CYAN := Color(0.0, 1.0, 1.0, 1.0)
  // 0xFF888888: each colour channel is 0x88 out of 0xFF.
  const GRAY := Color(136.0 / 255.0, 136.0 / 255.0, 136.0 / 255.0, 1.0)

  /** The options offered by the three pickers, in the order shown. */
  const PICKER_COLORS: seq<Color> := [BLACK, RED, GREEN, BLUE, YELLOW, MAGENTA, CYAN, GRAY]
  const BRUSH_SIZES: seq<real> := [2.0, 5.0, 10.0, 15.0, 20.0]
  const OPACITIES: seq<real> := [1.0, 0.75, 0.5, 0.25, 0.1]

  /** The settings a fresh drawing starts with. */
  const DEFAULT_COLOR := BLACK
  const DEFAULT_STROKE_WIDTH := 5.0
  const DEFAULT_ALPHA := 1.0

  /** The value of an 8-bit channel holding `k`. */
  function ByteLevel(k: int): real {
    k as real / 255.0
  }

  /** `x` is one of the 256 values an 8-bit sRGB channel can hold. */
  ghost predicate OnByteGrid(x: real) {
    exists k :: 0 <= k <= 255 && x == ByteLevel(k)
  }

  /** Every channel of `c` is on the 8-bit grid. */
  ghost predicate ByteColor(c: Color) {
    OnByteGrid(c.red) && OnByteGrid(c.green) && OnByteGrid(c.blue) && OnByteGrid(c.alpha)
  }

  /** Options whose colour is an in-gamut 8-bit colour, whose width is
      positive and whose opacity lies in (0, 1]: what the pickers produce. */
  ghost predicate WellFormed(o: PaintOptions) {
    InGamut(o.color) && ByteColor(o.color) && o.strokeWidth > 0.0 && 0.0 < o.alpha <= 1.0
  }

  /** Every option the pickers offer, and the defaults, are well formed. */
  lemma PickerOptionsWellFormed()
    ensures forall c :: c in PICKER_COLORS ==> InGamut(c) && ByteColor(c)
    ensures forall w :: w in BRUSH_SIZES ==> w > 0.0
    ensures forall a :: a in OPACITIES ==> 0.0 < a <= 1.0
    ensures WellFormed(PaintOptions(DEFAULT_COLOR, DEFAULT_STROKE_WIDTH, DEFAULT_ALPHA))
  {
    assert 0.0 == ByteLevel(0) && 1.0 == ByteLevel(255) && 136.0 / 255.0 == ByteLevel(136);
  }

  /** The complement of a colour: each of red, green and blue becomes one
      minus itself, the alpha channel is kept. */
  function InvertColor(c: Color): (r: Color)
    ensures r.alpha == c.alpha
    ensures InGamut(c) ==> InGamut(r)
  {
    Color(1.0 - c.red, 1.0 - c.green, 1.0 - c.blue, c.alpha)
  }

  /** One minus an 8-bit level k is the level 255 - k. */
  lemma ComplementOnByteGrid(x: real)
    requires OnByteGrid(x)
    ensures OnByteGrid(1.0 - x)
  {
    var k :| 0 <= k <= 255 && x == ByteLevel(k);
    assert 1.0 - x == ByteLevel(255 - k);
  }

  /** Inversion maps 8-bit colours to 8-bit colours, level k to level
      255 - k, so on such colours it needs no rounding. */
  lemma InvertColorKeepsByteGrid(c: Color)
    requires ByteColor(c)
    ensures ByteColor(InvertColor(c))
  {
    ComplementOnByteGrid(c.red);
    ComplementOnByteGrid(c.green);
    ComplementOnByteGrid(c.blue);
  }

  /** Inverting twice gives back the original colour. */
  lemma InvertColorInvolution(c: Color)
    ensures InvertColor(InvertColor(c)) == c
  {
  }

  /** The colour a stroke is drawn with: its own colour with the alpha
      channel replaced by the stroke's opacity. */
  function RenderColor(o: PaintOptions): (r: Color)
    ensures r.alpha == o.alpha
    ensures r.(alpha := o.color.alpha) == o.color
    ensures InGamut(o.color) && 0.0 <= o.alpha <= 1.0 ==> InGamut(r)
  {
    o.color.(alpha := o.alpha)
  }

  /** The colour's own alpha plays no part in rendering: two option sets
      that differ only there render alike, and replacing (not multiplying)
      is what happens even when the colour is translucent. */
  lemma RenderDiscardsColorAlpha(o: PaintOptions, a: real)
    ensures RenderColor(o.(color := o.color.(alpha := a))) == RenderColor(o)
    ensures RenderColor(o).alpha == o.alpha
  {
  }
}
