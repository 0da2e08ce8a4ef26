/** Colour values shared by the texture atlas and the materials (GameCore/Colors.h is not part
    of this model; only the shape of its colour types is). */
module Colors {
  import opened Vectors

  /** An 8-bit colour component. */
  newtype byte = x: int | 0 <= x < 256

  /** rgbColor: an opaque colour; materials are keyed by one. */
  datatype RgbColor = RgbColor(r: byte, g: byte, b: byte)

  /** rgbaColor: a colour with an alpha component. */
  datatype Rgba = Rgba(r: byte, g: byte, b: byte, a: byte)

  /** rgbaColor::zero(): transparent black. */
  const TransparentBlack: Rgba := Rgba(0, 0, 0, 0)

  /** rgbaColor(rgb, alpha). */
  function WithAlpha(c: RgbColor, alpha: byte): Rgba {
    Rgba(c.r, c.g, c.b, alpha)
  }

  /** rgbColor::toVec4f(alpha): the components scaled to [0, 1], with the given alpha. */
  function ToVec4(c: RgbColor, alpha: real): (v: Vec4)
    ensures 0.0 <= v.x <= 1.0 && 0.0 <= v.y <= 1.0 && 0.0 <= v.z <= 1.0 && v.w == alpha
  {
    Vec4(c.r as real / 255.0, c.g as real / 255.0, c.b as real / 255.0, alpha)
  }
}
