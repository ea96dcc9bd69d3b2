/** Colours as the drawing calls take them. */
module Colors {

  /** An RGBA colour with one byte per channel. */
  datatype Color = Color(r: bv8, g: bv8, b: bv8, a: bv8)

  /** `toFonsColor`: the channels packed into one 32-bit word, red in the
      lowest byte and alpha in the highest. */
  function ToFonsColor(c: Color): (w: bv32)
    ensures (w & 0xFF) as bv8 == c.r
    ensures ((w >> 8) & 0xFF) as bv8 == c.g
    ensures ((w >> 16) & 0xFF) as bv8 == c.b
    ensures (w >> 24) as bv8 == c.a
  {
    (c.r as bv32) | ((c.g as bv32) << 8) | ((c.b as bv32) << 16) | ((c.a as bv32) << 24)
  }

  /** The channels of a packed colour word. */
  function FromFonsColor(w: bv32): (c: Color)
    ensures ToFonsColor(c) == w
  {
    Color((w & 0xFF) as bv8, ((w >> 8) & 0xFF) as bv8, ((w >> 16) & 0xFF) as bv8, (w >> 24) as bv8)
  }
}
