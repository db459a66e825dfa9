/**
 Packed ARGB pixels as Java `int`s: channel extraction, packing, the
 luminance transform and the grey pixel the detector writes.
 */
module Pixels {
  import opened Numerics

  predicate IsChannel(c: int) {
    0 <= c <= 255
  }

  /** `(argb >> 16) & 0xFF`; `>>` is a floor division for every Java int. */
  function Red(p: int): (c: int)
    ensures IsChannel(c)
  {
    (p / 0x1_0000) % 0x100
  }

  /** `(argb >> 8) & 0xFF` */
  function Green(p: int): (c: int)
    ensures IsChannel(c)
  {
    (p / 0x100) % 0x100
  }

  /** `argb & 0xFF` */
  function Blue(p: int): (c: int)
    ensures IsChannel(c)
  {
    p % 0x100
  }

  /** The Java int `(a << 24) | (r << 16) | (g << 8) | b`: with every channel
      in 0..255 the four fields do not overlap, so the or is a sum. */
  function Pack(a: int, r: int, g: int, b: int): (p: int)
    requires IsChannel(a) && IsChannel(r) && IsChannel(g) && IsChannel(b)
    ensures IsJavaInt(p)
  {
    Wrap32(a * 0x100_0000 + r * 0x1_0000 + g * 0x100 + b)
  }

  /** Opaque white and opaque black, the two values of the maxima mask. */
  const White: int := Pack(0xFF, 255, 255, 255)
  const Black: int := Pack(0xFF, 0, 0, 0)

  /** Division by 2^8 of a value with known quotient and remainder. */
  lemma DivBy256(v: int, q: int, rem: int)
    requires 0 <= rem < 0x100 && v == q * 0x100 + rem
    ensures v / 0x100 == q && v % 0x100 == rem
  {
  }

  /** Division by 2^16 of a value with known quotient and remainder. */
  lemma DivBy65536(v: int, q: int, rem: int)
    requires 0 <= rem < 0x1_0000 && v == q * 0x1_0000 + rem
    ensures v / 0x1_0000 == q
  {
  }

  /** Extracting the channels of a packed pixel gives back the channels it
      was packed from, whether or not the alpha field wraps the sign bit. */
  lemma {:induction false} ChannelsOfPack(a: int, r: int, g: int, b: int)
    requires IsChannel(a) && IsChannel(r) && IsChannel(g) && IsChannel(b)
    ensures Red(Pack(a, r, g, b)) == r
    ensures Green(Pack(a, r, g, b)) == g
    ensures Blue(Pack(a, r, g, b)) == b
  {
    var v := a * 0x100_0000 + r * 0x1_0000 + g * 0x100 + b;
    assert 0 <= v < TwoTo32;
    var top := if v >= 0x8000_0000 then a - 0x100 else a;
    var p := Pack(a, r, g, b);
    assert p == ((top * 0x100 + r) * 0x100 + g) * 0x100 + b;
    DivBy256(p, (top * 0x100 + r) * 0x100 + g, b);
    DivBy256((top * 0x100 + r) * 0x100 + g, top * 0x100 + r, g);
    DivBy65536(p, top * 0x100 + r, g * 0x100 + b);
    DivBy256(top * 0x100 + r, top, r);
  }

  /** Luminance `(int)(0.299 r + 0.587 g + 0.114 b)`, with the weights as
      exact rationals. */
  function Luminance(r: int, g: int, b: int): (l: int)
    requires IsChannel(r) && IsChannel(g) && IsChannel(b)
    ensures IsChannel(l)
    ensures r == g == b ==> l == r
  {
    (299 * r + 587 * g + 114 * b) / 1000
  }

  /** Grey value of one packed pixel: luminance of its three colour channels. */
  function GrayOf(p: int): (l: int)
    ensures IsChannel(l)
  {
    Luminance(Red(p), Green(p), Blue(p))
  }

  /** The Java int `(0xFF << 24) | (grey << 16) | (grey << 8) | grey` for any
      int `grey`. For a level in 0..255 the fields do not overlap and the
      pixel is the packed opaque grey; outside that range the shifted copies
      overlap and are or-ed bit by bit. */
  function GreyPixel(grey: int): int
    requires IsJavaInt(grey)
  {
    if IsChannel(grey) then Pack(0xFF, grey, grey, grey)
    else
      var g := (grey % TwoTo32) as bv32;
      Wrap32((0xFF00_0000 | (g << 16) | (g << 8) | g) as int)
  }

  /** For a level in 0..255 the written pixel is opaque grey: alpha 0xFF,
      which as a signed int puts it 2^24 below the three-channel value; its
      red, green and blue channels all equal `grey`, and so does its
      luminance. */
  lemma {:induction false} GreyPixelChannels(grey: int)
    requires IsChannel(grey)
    ensures GreyPixel(grey) == Pack(0xFF, grey, grey, grey)
    ensures GreyPixel(grey) == grey * 0x1_0101 - 0x100_0000
    ensures Red(GreyPixel(grey)) == grey && Green(GreyPixel(grey)) == grey && Blue(GreyPixel(grey)) == grey
    ensures GrayOf(GreyPixel(grey)) == grey
  {
    ChannelsOfPack(0xFF, grey, grey, grey);
  }
}
