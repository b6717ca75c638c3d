/** Colours, their quantisation and the packed integer key used by the vectoriser's colour map. */
module ColorModel {
  import opened Basics

  /** A pixel of an OpenCV colour matrix (Vec3b). OpenCV stores BGR, so item0 is blue,
      item1 green and item2 red. */
  datatype Vec3b = Vec3b(item0: Byte, item1: Byte, item2: Byte)

  /** An opaque System.Drawing colour. */
  datatype Rgb = Rgb(r: Byte, g: Byte, b: Byte)

  /** Background test of the vectoriser: all three channels above 230. */
  predicate IsWhite(r: Byte, g: Byte, b: Byte)
  {
    r > 230 && g > 230 && b > 230
  }

  /** Floor bucketing of one channel: the largest multiple of step not above c. */
  function QuantizeChannel(c: Byte, step: int): (q: Byte)
    requires 0 < step
    ensures q % step == 0
    ensures q <= c < q + step
  {
    var k := c / step;
    MultipleHasNoRemainder(k, step);
    k * step
  }

  lemma MultipleHasNoRemainder(k: nat, step: int)
    requires 0 < step
    ensures (k * step) % step == 0
  {
    DivUnique(k * step, step, k, 0);
  }

  /** Bucketing leaves exactly the multiples of step unchanged, so bucketing twice is
      bucketing once. */
  lemma QuantizeChannelFixed(c: Byte, step: int)
    requires 0 < step
    ensures QuantizeChannel(c, step) == c <==> c % step == 0
    ensures QuantizeChannel(QuantizeChannel(c, step), step) == QuantizeChannel(c, step)
  {
  }

  /** The darkening factor of edge mode: the C# byte cast of c * 0.6. For a byte c the
      double product truncates to the same value as the exact (3 * c) / 5. */
  function Darken(c: Byte): (d: Byte)
    ensures d <= c
    ensures 5 * d <= 3 * c < 5 * d + 5
  {
    (3 * c) / 5
  }

  /** Channel value of an edge-mode key: darkened, then bucketed by 20. */
  function EdgeChannel(c: Byte): (q: Byte)
    ensures q % 20 == 0 && q <= c && q <= 140
  {
    QuantizeChannel(Darken(c), 20)
  }

  /** Channel value of a block-mode key: bucketed by 42. */
  function BlockChannel(c: Byte): (q: Byte)
    ensures q % 42 == 0 && q <= c && q <= 252
  {
    QuantizeChannel(c, 42)
  }

  /** The packed key (r << 16) | (g << 8) | b. The three fields occupy disjoint bits,
      so the bitwise or equals the sum written here. */
  function Pack(r: Byte, g: Byte, b: Byte): (k: int)
    ensures 0 <= k < 0x100_0000
  {
    r * 0x1_0000 + g * 0x100 + b
  }

  /** FromArgb((k >> 16) & 0xFF, (k >> 8) & 0xFF, k & 0xFF). Dividing by a power of two
      with Dafny's Euclidean division is the arithmetic right shift, and the Euclidean
      remainder modulo 256 is the low byte, so this holds for negative keys as well. */
  function Unpack(k: int): Rgb
  {
    Rgb((k / 0x1_0000) % 0x100, (k / 0x100) % 0x100, k % 0x100)
  }

  lemma UnpackPack(r: Byte, g: Byte, b: Byte)
    ensures Unpack(Pack(r, g, b)) == Rgb(r, g, b)
  {
    var k := Pack(r, g, b);
    DivUnique(k, 0x1_0000, r, g * 0x100 + b);
    DivUnique(r, 0x100, 0, r);
    DivUnique(k, 0x100, r * 0x100 + g, b);
    DivUnique(r * 0x100 + g, 0x100, r, g);
  }

  lemma PackUnpack(k: int)
    requires 0 <= k < 0x100_0000
    ensures var c := Unpack(k); Pack(c.r, c.g, c.b) == k
  {
  }

  /** The key edge mode gives a non-white pixel. */
  function EdgeKey(px: Vec3b): int
  {
    Pack(EdgeChannel(px.item2), EdgeChannel(px.item1), EdgeChannel(px.item0))
  }

  /** The key block mode gives a non-white pixel. */
  function BlockKey(px: Vec3b): int
  {
    Pack(BlockChannel(px.item2), BlockChannel(px.item1), BlockChannel(px.item0))
  }

  /** MainWindow.Quantize: every channel bucketed by 20. */
  function Quantize(c: Rgb): (q: Rgb)
    ensures q.r % 20 == 0 && q.r <= c.r < q.r + 20
    ensures q.g % 20 == 0 && q.g <= c.g < q.g + 20
    ensures q.b % 20 == 0 && q.b <= c.b < q.b + 20
  {
    Rgb(QuantizeChannel(c.r, 20), QuantizeChannel(c.g, 20), QuantizeChannel(c.b, 20))
  }

  /** Quantize is idempotent, and a colour whose channels are all multiples of 20 is its own
      quantisation. */
  lemma QuantizeFixed(c: Rgb)
    ensures Quantize(Quantize(c)) == Quantize(c)
    ensures Quantize(c) == c <==> c.r % 20 == 0 && c.g % 20 == 0 && c.b % 20 == 0
  {
    QuantizeChannelFixed(c.r, 20);
    QuantizeChannelFixed(c.g, 20);
    QuantizeChannelFixed(c.b, 20);
  }
}
