/**
 * Colour quantisation of src/output/mod.rs: each channel is clamped to `[0, 1]`, scaled by 255
 * and cast to `u8`, which truncates toward zero; and the luminance of an RGB vector.
 */
module Output {
  import V = Vector
  import Spectra
  import opened Bytes

  /** `0.0.max(x.min(1.0))`. */
  function Unit(x: real): (u: real)
    ensures 0.0 <= u <= 1.0
    ensures 0.0 <= x <= 1.0 ==> u == x
  {
    V.Max(0.0, V.Min(x, 1.0))
  }

  /** One channel: `Unit(x) * 255.0`, cast to `u8`, which drops the fraction. */
  function Channel(x: real): (q: byte)
    ensures (q as real) <= Unit(x) * 255.0 < (q as real) + 1.0
  {
    var scaled := Unit(x) * 255.0;
    assert 0.0 <= scaled <= 255.0;
    scaled.Floor
  }

  datatype QuantisedColor = QuantisedColor(r: byte, g: byte, b: byte)

  /** `QuantisedColor::new`: each channel quantised on its own. */
  function NewColor(r: real, g: real, b: real): (q: QuantisedColor)
    ensures q.r == Channel(r) && q.g == Channel(g) && q.b == Channel(b)
  {
    QuantisedColor(Channel(r), Channel(g), Channel(b))
  }

  /** Anything at or below 0 gives 0, anything at or above 1 gives 255. */
  lemma ChannelSaturates(x: real)
    ensures x <= 0.0 ==> Channel(x) == 0
    ensures x >= 1.0 ==> Channel(x) == 255
  {
  }

  /** A larger input never gives a smaller byte. */
  lemma ChannelMonotone(x: real, y: real)
    requires x <= y
    ensures Channel(x) <= Channel(y)
  {
    assert Unit(x) <= Unit(y);
    assert Unit(x) * 255.0 <= Unit(y) * 255.0;
  }

  /** Exact multiples of 1/255 come back as their numerator. */
  lemma ChannelExact(k: nat)
    requires k <= 255
    ensures Channel((k as real) / 255.0) == k
  {
    assert Unit((k as real) / 255.0) * 255.0 == k as real;
  }

  /** Each channel of the colour depends on its own input only. */
  lemma ChannelsIndependent(r: real, g: real, b: real, r2: real, g2: real, b2: real)
    ensures NewColor(r, g, b).r == NewColor(r, g2, b2).r
    ensures NewColor(r, g, b).g == NewColor(r2, g, b2).g
    ensures NewColor(r, g, b).b == NewColor(r2, g2, b).b
  {
  }

  /** `rgb_to_luminance`: the dot product with the weights `(0.212671, 0.71516, 0.072169)`. */
  function RgbToLuminance(color: V.Vec3): real
  {
    V.Dot(V.Vec3(0.212671, 0.71516, 0.072169), color)
  }

  /** It is the luminance `RGBSpectrum::y` gives the same three coefficients. */
  lemma LuminanceAgrees(color: V.Vec3)
    ensures RgbToLuminance(color) == Spectra.Luminance([color.x, color.y, color.z])
  {
  }
}
