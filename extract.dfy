/** The six channel extractors of Main.java.

    An image is an `array2<Word>` indexed `[x, y]`: `Length0` is the width and
    `Length1` the height, and `img[x, y]` is what `image.getRGB(x, y)` returns.
    Each extractor allocates a fresh buffer of the same size and fills it in a
    nested loop, rows (`y`) outside and columns (`x`) inside.
 */
module Extract {
  import opened Pixels

  /** A buffer position `(x, y)`. */
  datatype Coord = Coord(x: int, y: int)

  /** The positions of row `y` in the order the inner loop visits them. */
  function Row(w: nat, y: nat): (r: seq<Coord>)
    ensures |r| == w
    ensures forall x :: 0 <= x < w ==> r[x].x == x && r[x].y == y
  {
    seq(w, x => Coord(x, y))
  }

  /** The positions of rows `0 .. h-1` in the order the nested loop visits them. */
  function Scan(w: nat, h: nat): (r: seq<Coord>)
    ensures forall i :: 0 <= i < |r| ==> 0 <= r[i].y < h
  {
    if h == 0 then [] else Scan(w, h - 1) + Row(w, h - 1)
  }

  /** One step of the inner loop appends the position it writes. */
  lemma ScanStep(w: nat, y: nat, x: nat)
    requires x < w
    ensures Scan(w, y) + Row(w, y)[..x + 1] == (Scan(w, y) + Row(w, y)[..x]) + [Coord(x, y)]
  {
    assert Row(w, y)[..x + 1] == Row(w, y)[..x] + [Coord(x, y)];
  }

  /** A finished inner loop has appended the whole row. */
  lemma ScanRowDone(w: nat, y: nat)
    ensures Scan(w, y) + Row(w, y)[..w] == Scan(w, y + 1)
  {
    assert Row(w, y)[..w] == Row(w, y);
  }

  /** The nested loop visits each position of a `w` by `h` buffer exactly once
      and nothing outside it. */
  lemma {:induction false} ScanVisitsEachOnce(w: nat, h: nat)
    ensures |Scan(w, h)| == w * h
    ensures forall i :: 0 <= i < |Scan(w, h)| ==> 0 <= Scan(w, h)[i].x < w && 0 <= Scan(w, h)[i].y < h
    ensures forall x, y :: 0 <= x < w && 0 <= y < h ==> Coord(x, y) in Scan(w, h)
    ensures forall i, j :: 0 <= i < j < |Scan(w, h)| ==> Scan(w, h)[i] != Scan(w, h)[j]
  {
    if h > 0 {
      ScanVisitsEachOnce(w, h - 1);
      var s, r := Scan(w, h - 1), Row(w, h - 1);
      assert Scan(w, h) == s + r;
      assert |s + r| == w * (h - 1) + w == w * h;
      forall x, y | 0 <= x < w && 0 <= y < h
        ensures Coord(x, y) in s + r
      {
        if y < h - 1 {
          assert Coord(x, y) in s;
        } else {
          assert (s + r)[|s| + x] == r[x] == Coord(x, y);
        }
      }
    }
  }

  /** `dst` is the result of extracting channel `c` in mode `m` from `src`:
      the same size, and each pixel the packed value computed from the source
      pixel at the same position. */
  ghost predicate IsExtraction(src: array2<Word>, dst: array2<Word>, c: Channel, m: Mode)
    reads src, dst
  {
    dst.Length0 == src.Length0 && dst.Length1 == src.Length1 &&
    forall x, y :: 0 <= x < src.Length0 && 0 <= y < src.Length1 ==>
      dst[x, y] == ExtractPixel(c, m, src[x, y])
  }

  /** The loop shared by all six extractors. `visits` records, in order, the
      positions passed to `setRGB`: it is appended alongside each write to
      `out`, so ScanVisitsEachOnce about `Scan` says each position is written
      exactly once. */
  method ExtractChannel(img: array2<Word>, c: Channel, m: Mode) returns (out: array2<Word>, ghost visits: seq<Coord>)
    ensures fresh(out)
    ensures IsExtraction(img, out, c, m)
    ensures visits == Scan(img.Length0, img.Length1)
  {
    var width, height := img.Length0, img.Length1;
    out := new Word[width, height];
    visits := [];
    for y := 0 to height
      invariant forall i, j :: 0 <= i < width && 0 <= j < y ==> out[i, j] == ExtractPixel(c, m, img[i, j])
      invariant visits == Scan(width, y)
    {
      for x := 0 to width
        invariant forall i, j :: 0 <= i < width && 0 <= j < y ==> out[i, j] == ExtractPixel(c, m, img[i, j])
        invariant forall i :: 0 <= i < x ==> out[i, y] == ExtractPixel(c, m, img[i, y])
        invariant visits == Scan(width, y) + Row(width, y)[..x]
      {
        var rgb := img[x, y];
        out[x, y] := ExtractPixel(c, m, rgb);
        ScanStep(width, y, x);
        visits := visits + [Coord(x, y)];
      }
      ScanRowDone(width, y);
    }
  }

  /** `extractRedChannel`: red kept in place, green and blue 0. */
  method ExtractRedChannel(img: array2<Word>) returns (out: array2<Word>)
    ensures fresh(out) && out.Length0 == img.Length0 && out.Length1 == img.Length1
    ensures IsExtraction(img, out, Red, Color)
    ensures forall x, y :: 0 <= x < img.Length0 && 0 <= y < img.Length1 ==>
      out[x, y] == ((img[x, y] >> 16) & 0xFF) << 16
  {
    ghost var visits;
    out, visits := ExtractChannel(img, Red, Color);
  }

  /** `extractGreenChannel`: green kept in place, red and blue 0. */
  method ExtractGreenChannel(img: array2<Word>) returns (out: array2<Word>)
    ensures fresh(out) && out.Length0 == img.Length0 && out.Length1 == img.Length1
    ensures IsExtraction(img, out, Green, Color)
    ensures forall x, y :: 0 <= x < img.Length0 && 0 <= y < img.Length1 ==>
      out[x, y] == ((img[x, y] >> 8) & 0xFF) << 8
  {
    ghost var visits;
    out, visits := ExtractChannel(img, Green, Color);
  }

  /** `extractBlueChannel`: blue kept in place, red and green 0. */
  method ExtractBlueChannel(img: array2<Word>) returns (out: array2<Word>)
    ensures fresh(out) && out.Length0 == img.Length0 && out.Length1 == img.Length1
    ensures IsExtraction(img, out, Blue, Color)
    ensures forall x, y :: 0 <= x < img.Length0 && 0 <= y < img.Length1 ==>
      out[x, y] == img[x, y] & 0xFF
  {
    ghost var visits;
    out, visits := ExtractChannel(img, Blue, Color);
  }

  /** `extractRedAsGrayscale`: the red intensity copied into all three components. */
  method ExtractRedAsGrayscale(img: array2<Word>) returns (out: array2<Word>)
    ensures fresh(out) && out.Length0 == img.Length0 && out.Length1 == img.Length1
    ensures IsExtraction(img, out, Red, Grayscale)
    ensures forall x, y :: 0 <= x < img.Length0 && 0 <= y < img.Length1 ==>
      var v := (img[x, y] >> 16) & 0xFF; out[x, y] == (v << 16) | (v << 8) | v
  {
    ghost var visits;
    out, visits := ExtractChannel(img, Red, Grayscale);
  }

  /** `extractGreenAsGrayscale`: the green intensity copied into all three components. */
  method ExtractGreenAsGrayscale(img: array2<Word>) returns (out: array2<Word>)
    ensures fresh(out) && out.Length0 == img.Length0 && out.Length1 == img.Length1
    ensures IsExtraction(img, out, Green, Grayscale)
    ensures forall x, y :: 0 <= x < img.Length0 && 0 <= y < img.Length1 ==>
      var v := (img[x, y] >> 8) & 0xFF; out[x, y] == (v << 16) | (v << 8) | v
  {
    ghost var visits;
    out, visits := ExtractChannel(img, Green, Grayscale);
  }

  /** `extractBlueAsGrayscale`: the blue intensity copied into all three components. */
  method ExtractBlueAsGrayscale(img: array2<Word>) returns (out: array2<Word>)
    ensures fresh(out) && out.Length0 == img.Length0 && out.Length1 == img.Length1
    ensures IsExtraction(img, out, Blue, Grayscale)
    ensures forall x, y :: 0 <= x < img.Length0 && 0 <= y < img.Length1 ==>
      var v := img[x, y] & 0xFF; out[x, y] == (v << 16) | (v << 8) | v
  {
    ghost var visits;
    out, visits := ExtractChannel(img, Blue, Grayscale);
  }

  /** Extracting again from an extractor's output, as read back (possibly with
      an alpha byte added by `getRGB`), reproduces that output. */
  lemma ExtractTwiceIsOnce(img: array2<Word>, once: array2<Word>, reread: array2<Word>, twice: array2<Word>, c: Channel, m: Mode)
    requires IsExtraction(img, once, c, m)
    requires reread.Length0 == once.Length0 && reread.Length1 == once.Length1
    requires forall x, y :: 0 <= x < once.Length0 && 0 <= y < once.Length1 ==>
      ClearAlpha(reread[x, y]) == ClearAlpha(once[x, y])
    requires IsExtraction(reread, twice, c, m)
    ensures forall x, y :: 0 <= x < img.Length0 && 0 <= y < img.Length1 ==> twice[x, y] == once[x, y]
  {
    forall x, y | 0 <= x < img.Length0 && 0 <= y < img.Length1
      ensures twice[x, y] == once[x, y]
    {
      var p, r := img[x, y], reread[x, y];
      assert once[x, y] == ExtractPixel(c, m, p);
      assert twice[x, y] == ExtractPixel(c, m, r);
      ExtractReread(c, m, p, r);
    }
  }
}
