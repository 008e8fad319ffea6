/** Packed pixels and the per-pixel channel transforms.

    A pixel is the 32-bit `int` that `BufferedImage.getRGB` returns: alpha in
    bits 24..31, red in 16..23, green in 8..15, blue in 0..7.  It is modelled
    as a `bv32`.  Java's `>>` is an arithmetic shift and Dafny's `>>` on a
    bit-vector is a logical one; the two differ only in the bits shifted in
    at the top, and every right shift in the extractors is followed by
    `& 0xFF`, which discards those bits; the left shifts act alike on `int`
    and `bv32`, so the model computes exactly what Java does.
 */
module Pixels {

  /** A Java `int` holding a packed ARGB value. */
  type Word = bv32

  /** Which 8-bit component an extractor isolates. */
  datatype Channel = Red | Green | Blue

  /** Isolated-colour output (`extractRedChannel` ...) or grayscale output (`extractRedAsGrayscale` ...). */
  datatype Mode = Color | Grayscale

  /** A pixel viewed as three unpacked intensities, each meant to lie in [0, 255]. */
  datatype Rgb = Rgb(r: int, g: int, b: int)

  /** The component `c` of `p`, unpacked by shift-and-mask. */
  function Component(c: Channel, p: Word): (v: Word)
    ensures v <= 0xFF
  {
    match c
    case Red => (p >> 16) & 0xFF
    case Green => (p >> 8) & 0xFF
    case Blue => p & 0xFF
  }

  /** The component `c` of `p` as a mathematical integer (the `int red` of the source). */
  function Level(c: Channel, p: Word): (n: int)
    ensures 0 <= n <= 255
  {
    Component(c, p) as int
  }

  /** The pixel with its alpha byte cleared. */
  function ClearAlpha(p: Word): Word
  {
    p & 0xFF_FFFF
  }

  /** The colour a packed pixel denotes, alpha ignored. */
  function Decode(p: Word): Rgb
  {
    Rgb(Level(Red, p), Level(Green, p), Level(Blue, p))
  }

  /** The intensity of channel `c` in an unpacked colour. */
  function Select(c: Channel, px: Rgb): int
  {
    match c
    case Red => px.r
    case Green => px.g
    case Blue => px.b
  }

  /** Reference definition of one output pixel, on unpacked colours:
      isolated-colour mode keeps the selected intensity in its own place and
      zeroes the others; grayscale mode copies it into all three. */
  function Reference(c: Channel, m: Mode, px: Rgb): Rgb
  {
    var v := Select(c, px);
    match m
    case Grayscale => Rgb(v, v, v)
    case Color =>
      match c
      case Red => Rgb(v, 0, 0)
      case Green => Rgb(0, v, 0)
      case Blue => Rgb(0, 0, v)
  }

  /** Puts the 8-bit value `v` in the position of channel `c`, the other two
      components and alpha being 0 (`(red << 16) | (0 << 8) | 0` and its
      green and blue counterparts). */
  function Isolate(c: Channel, v: Word): (q: Word)
    requires v <= 0xFF
    ensures Component(c, q) == v
    ensures forall d :: d != c ==> Component(d, q) == 0
    ensures q >> 24 == 0
  {
    match c
    case Red => (v << 16) | (0 << 8) | 0
    case Green => (0 << 16) | (v << 8) | 0
    case Blue => (0 << 16) | (0 << 8) | v
  }

  /** Copies the 8-bit value `v` into all three components, alpha 0
      (`(red << 16) | (red << 8) | red`). */
  function Gray(v: Word): (q: Word)
    requires v <= 0xFF
    ensures forall d :: Component(d, q) == v
    ensures q >> 24 == 0
  {
    (v << 16) | (v << 8) | v
  }

  /** The packed value one extractor passes to `setRGB` for source pixel `p`:
      the selected component is passed through unchanged; in isolated-colour
      mode the other two are 0, in grayscale mode they equal it; alpha is 0. */
  function ExtractPixel(c: Channel, m: Mode, p: Word): (q: Word)
    ensures Component(c, q) == Component(c, p)
    ensures m == Color ==> forall d :: d != c ==> Component(d, q) == 0
    ensures m == Grayscale ==> forall d :: Component(d, q) == Component(c, p)
    ensures q >> 24 == 0
  {
    var v := Component(c, p);
    match m
    case Grayscale => Gray(v)
    case Color => Isolate(c, v)
  }

  /** ExtractPixel agrees with the reference definition on unpacked colours. */
  lemma ExtractMatchesReference(c: Channel, m: Mode, p: Word)
    ensures Decode(ExtractPixel(c, m, p)) == Reference(c, m, Decode(p))
  {
    var q := ExtractPixel(c, m, p);
    assert Select(c, Decode(p)) == Level(c, p);
    assert Select(c, Decode(q)) == Level(c, q) == Level(c, p);
    forall d | m == Color && d != c
      ensures Select(d, Decode(q)) == 0
    {
      assert Component(d, q) == 0;
    }
    forall d | m == Grayscale
      ensures Select(d, Decode(q)) == Level(c, p)
    {
      assert Component(d, q) == Component(c, p);
    }
    assert Decode(q) == Rgb(Select(Red, Decode(q)), Select(Green, Decode(q)), Select(Blue, Decode(q)));
  }

  /** Two pixels without alpha whose three components agree are the same word,
      so the components fix a pixel completely. */
  lemma ComponentsDetermine(p: Word, q: Word)
    requires p >> 24 == 0 && q >> 24 == 0
    requires Component(Red, p) == Component(Red, q)
    requires Component(Green, p) == Component(Green, q)
    requires Component(Blue, p) == Component(Blue, q)
    ensures p == q
  {
  }

  /** The integer level of a component determines the component. */
  lemma LevelInjective(c: Channel, p: Word, q: Word)
    requires Level(c, p) == Level(c, q)
    ensures Component(c, p) == Component(c, q)
  {
  }

  /** Two pixels without alpha that denote the same colour are the same word:
      Decode loses nothing but alpha, so the contract of ExtractPixel fixes its result. */
  lemma DecodeInjective(p: Word, q: Word)
    requires p >> 24 == 0 && q >> 24 == 0
    requires Decode(p) == Decode(q)
    ensures p == q
  {
    LevelInjective(Red, p, q);
    LevelInjective(Green, p, q);
    LevelInjective(Blue, p, q);
    ComponentsDetermine(p, q);
  }

  /** The alpha byte never influences a component. */
  lemma ComponentIgnoresAlpha(c: Channel, p: Word, q: Word)
    requires ClearAlpha(p) == ClearAlpha(q)
    ensures Component(c, p) == Component(c, q)
  {
  }

  /** Extracting the same channel in the same mode a second time changes nothing. */
  lemma ExtractIdempotent(c: Channel, m: Mode, p: Word)
    ensures ExtractPixel(c, m, ExtractPixel(c, m, p)) == ExtractPixel(c, m, p)
  {
  }

  /** The alpha byte the decoder or `getRGB` supplies never reaches the output. */
  lemma ExtractIgnoresAlpha(c: Channel, m: Mode, p: Word, q: Word)
    requires ClearAlpha(p) == ClearAlpha(q)
    ensures ExtractPixel(c, m, p) == ExtractPixel(c, m, q)
  {
    ComponentIgnoresAlpha(c, p, q);
  }

  /** Extracting again from an output read back with any alpha byte reproduces it. */
  lemma ExtractReread(c: Channel, m: Mode, p: Word, r: Word)
    requires ClearAlpha(r) == ClearAlpha(ExtractPixel(c, m, p))
    ensures ExtractPixel(c, m, r) == ExtractPixel(c, m, p)
  {
    ExtractIgnoresAlpha(c, m, r, ExtractPixel(c, m, p));
    ExtractIdempotent(c, m, p);
  }

  /** A pixel that already carries only channel `c` is left as it is by
      isolated-colour extraction of `c`, except that its alpha byte (0xFF for
      every pixel `getRGB` returns from an opaque image) is cleared. */
  lemma ExtractFixesIsolated(c: Channel, p: Word)
    requires forall d :: d != c ==> Component(d, p) == 0
    ensures ExtractPixel(c, Color, p) == ClearAlpha(p)
  {
    assert ClearAlpha(p) >> 24 == 0;
    assert forall d :: Component(d, ClearAlpha(p)) == Component(d, p);
    ComponentsDetermine(ExtractPixel(c, Color, p), ClearAlpha(p));
  }

  /** Grayscale extraction of any channel from a grayscale output gives it back. */
  lemma GrayscaleFixesGray(c: Channel, d: Channel, p: Word)
    ensures ExtractPixel(d, Grayscale, ExtractPixel(c, Grayscale, p)) == ExtractPixel(c, Grayscale, p)
  {
  }
}
