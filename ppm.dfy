/**
 * The binary Netpbm writers of src/ppm.rs. Both fill a byte buffer with the P6 header
 * "P6\n<w> <h>\n255\n" and then three bytes per pixel in input order; writing the buffer to a
 * file is left out, so each writer here returns the buffer.
 */
module Ppm {
  import V = Vector
  import opened Bytes
  import Output

  /** `clamp(val, min, max)`: `f32::max(min, f32::min(val, max))`. */
  function Clamp(val: real, min: real, max: real): (r: real)
    ensures min <= max ==> min <= r <= max
    ensures min <= val <= max ==> r == val
  {
    V.Max(min, V.Min(val, max))
  }

  /** The decimal digit for `d`. */
  function Digit(d: nat): (c: char)
    requires d < 10
    ensures '0' <= c <= '9'
  {
    ('0' as int + d) as char
  }

  /** `{}` of a `usize`: its decimal digits, most significant first, without leading zeros. */
  function Decimal(n: nat): (s: seq<char>)
    ensures |s| >= 1 && forall i :: 0 <= i < |s| ==> '0' <= s[i] <= '9'
    ensures n > 0 ==> s[0] != '0'
    decreases n
  {
    if n < 10 then [Digit(n)] else Decimal(n / 10) + [Digit(n % 10)]
  }

  /** The number a string of decimal digits spells. */
  function ValueOf(s: seq<char>): nat
    requires forall i :: 0 <= i < |s| ==> '0' <= s[i] <= '9'
  {
    if s == [] then 0 else 10 * ValueOf(s[..|s| - 1]) + (s[|s| - 1] as int - '0' as int)
  }

  /** Reading the digits back gives the number: the header spells the true width and height. */
  lemma {:induction false} DecimalRoundTrip(n: nat)
    ensures ValueOf(Decimal(n)) == n
    decreases n
  {
    if n >= 10 {
      var s := Decimal(n);
      DecimalRoundTrip(n / 10);
      assert s[..|s| - 1] == Decimal(n / 10);
    }
  }

  /** ASCII text as bytes. */
  function Ascii(s: seq<char>): (b: seq<byte>)
    requires forall i :: 0 <= i < |s| ==> s[i] as int < 256
    ensures |b| == |s| && forall i :: 0 <= i < |s| ==> b[i] == s[i] as int
  {
    seq(|s|, i requires 0 <= i < |s| => s[i] as int)
  }

  /** `format!("P6\n{} {}\n255\n", w, h)` as bytes. */
  function Header(w: nat, h: nat): (b: seq<byte>)
    ensures |b| == |Decimal(w)| + |Decimal(h)| + 9
    ensures b[..3] == [80, 54, 10]
    ensures b[|b| - 4..] == [50, 53, 53, 10]
  {
    Ascii("P6\n" + Decimal(w) + " " + Decimal(h) + "\n255\n")
  }

  /** Text concatenated is bytes concatenated. */
  lemma AsciiConcat(a: seq<char>, b: seq<char>)
    requires forall i :: 0 <= i < |a| ==> a[i] as int < 256
    requires forall i :: 0 <= i < |b| ==> b[i] as int < 256
    ensures Ascii(a + b) == Ascii(a) + Ascii(b)
  {
  }

  /** The header is the magic number, the width, a space, the height and the maximum value. */
  lemma HeaderFields(w: nat, h: nat)
    ensures Header(w, h) == [80, 54, 10] + Ascii(Decimal(w)) + [32] + Ascii(Decimal(h)) + [10, 50, 53, 53, 10]
  {
    var dw := Decimal(w);
    var dh := Decimal(h);
    AsciiConcat("P6\n" + dw + " " + dh, "\n255\n");
    AsciiConcat("P6\n" + dw + " ", dh);
    AsciiConcat("P6\n" + dw, " ");
    AsciiConcat("P6\n", dw);
  }

  /** The bytes `dump_ppm_raw` appends: r, g, b of each pixel in order. */
  function RawPixels(data: seq<Output.QuantisedColor>): (b: seq<byte>)
    ensures |b| == 3 * |data|
  {
    if data == [] then []
    else
      var p := data[|data| - 1];
      RawPixels(data[..|data| - 1]) + [p.r, p.g, p.b]
  }

  /** Pixel `i` sits at bytes `3i`, `3i + 1` and `3i + 2`. */
  lemma {:induction false} RawPixelsLayout(data: seq<Output.QuantisedColor>, i: nat)
    requires i < |data|
    ensures RawPixels(data)[3 * i] == data[i].r
    ensures RawPixels(data)[3 * i + 1] == data[i].g
    ensures RawPixels(data)[3 * i + 2] == data[i].b
    decreases |data|
  {
    if i < |data| - 1 {
      RawPixelsLayout(data[..|data| - 1], i);
    }
  }

  /**
   * `dump_ppm_raw`: the header, then each pixel's three bytes. The size is only printed; nothing
   * checks that `data` holds `w * h` pixels.
   */
  method DumpPpmRaw(data: seq<Output.QuantisedColor>, w: nat, h: nat) returns (buffer: seq<byte>)
    ensures buffer == Header(w, h) + RawPixels(data)
    ensures |buffer| == |Header(w, h)| + 3 * |data|
  {
    buffer := Header(w, h);
    for i := 0 to |data|
      invariant buffer == Header(w, h) + RawPixels(data[..i])
    {
      var pixel := data[i];
      assert data[..i + 1][..i] == data[..i];
      buffer := buffer + [pixel.r, pixel.g, pixel.b];
    }
    assert data[..|data|] == data;
  }

  /** One channel of `dump_ppm`: `(clamp(sqrt(c), 0.0, 0.999) * 255.0) as u8`. */
  function GammaChannel(c: real, sqrt: real -> real): (q: byte)
    ensures q <= 254
  {
    var scaled := Clamp(sqrt(c), 0.0, 0.999) * 255.0;
    assert 0.0 <= scaled < 255.0;
    scaled.Floor
  }

  /** The bytes `dump_ppm` appends. */
  function GammaPixels(data: seq<V.Vec3>, sqrt: real -> real): (b: seq<byte>)
    ensures |b| == 3 * |data|
  {
    if data == [] then []
    else
      var p := data[|data| - 1];
      GammaPixels(data[..|data| - 1], sqrt)
      + [GammaChannel(p.x, sqrt), GammaChannel(p.y, sqrt), GammaChannel(p.z, sqrt)]
  }

  /** No pixel byte `dump_ppm` writes reaches 255. */
  lemma {:induction false} GammaPixelsBelowMax(data: seq<V.Vec3>, sqrt: real -> real)
    ensures forall k :: 0 <= k < |GammaPixels(data, sqrt)| ==> GammaPixels(data, sqrt)[k] <= 254
    decreases |data|
  {
    if data != [] {
      GammaPixelsBelowMax(data[..|data| - 1], sqrt);
    }
  }

  /** `dump_ppm`: the header, then the three gamma-corrected bytes of each pixel. */
  method DumpPpm(data: seq<V.Vec3>, w: nat, h: nat, sqrt: real -> real) returns (buffer: seq<byte>)
    ensures buffer == Header(w, h) + GammaPixels(data, sqrt)
    ensures |buffer| == |Header(w, h)| + 3 * |data|
  {
    buffer := Header(w, h);
    var max := 255.0;
    for i := 0 to |data|
      invariant buffer == Header(w, h) + GammaPixels(data[..i], sqrt)
    {
      var pixel := data[i];
      var r := sqrt(pixel.x);
      var g := sqrt(pixel.y);
      var b := sqrt(pixel.z);
      var ri := (Clamp(r, 0.0, 0.999) * max).Floor;
      var gi := (Clamp(g, 0.0, 0.999) * max).Floor;
      var bi := (Clamp(b, 0.0, 0.999) * max).Floor;
      assert ri == GammaChannel(pixel.x, sqrt) as int;
      assert gi == GammaChannel(pixel.y, sqrt) as int;
      assert bi == GammaChannel(pixel.z, sqrt) as int;
      ghost var bytes := [GammaChannel(pixel.x, sqrt), GammaChannel(pixel.y, sqrt), GammaChannel(pixel.z, sqrt)];
      assert data[..i + 1][..i] == data[..i];
      assert GammaPixels(data[..i + 1], sqrt) == GammaPixels(data[..i], sqrt) + bytes;
      buffer := buffer + [ri, gi, bi];
    }
    assert data[..|data|] == data;
  }
}
