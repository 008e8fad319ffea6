/** `createTestImage`: the synthetic 300 by 200 image of three vertical stripes. */
module TestImage {
  import opened Pixels

  /** The size of the test image. */
  const Width: nat := 300
  const Height: nat := 200

  /** The pixel of column `x` of the test image: pure red in the left third,
      pure green in the middle third, pure blue in the right third. */
  function StripeAt(x: int): (p: Word)
    ensures p >> 24 == 0
    ensures Decode(p) == if x < 100 then Rgb(255, 0, 0) else if x < 200 then Rgb(0, 255, 0) else Rgb(0, 0, 255)
  {
    if x < 100 then 0xFF_0000 else if x < 200 then 0x00_FF00 else 0x00_00FF
  }

  /** Fills a fresh 300 by 200 buffer row by row; the stripe boundaries are
      `width / 3` and `2 * width / 3` in integer division. */
  method CreateTestImage() returns (img: array2<Word>)
    ensures fresh(img)
    ensures img.Length0 == Width && img.Length1 == Height
    ensures forall x, y :: 0 <= x < Width && 0 <= y < Height ==> img[x, y] == StripeAt(x)
  {
    var width, height := Width, Height;
    img := new Word[width, height];
    for y := 0 to height
      invariant forall i, j :: 0 <= i < width && 0 <= j < y ==> img[i, j] == StripeAt(i)
    {
      for x := 0 to width
        invariant forall i, j :: 0 <= i < width && 0 <= j < y ==> img[i, j] == StripeAt(i)
        invariant forall i :: 0 <= i < x ==> img[i, y] == StripeAt(i)
      {
        var rgb: Word;
        if x < width / 3 {
          rgb := (255 << 16) | (0 << 8) | 0;
        } else if x < 2 * width / 3 {
          rgb := (0 << 16) | (255 << 8) | 0;
        } else {
          rgb := (0 << 16) | (0 << 8) | 255;
        }
        img[x, y] := rgb;
      }
    }
  }

  /** The three probe points: (50, 100) is red, (150, 100) green, (250, 100) blue. */
  lemma StripeProbes()
    ensures Decode(StripeAt(50)) == Rgb(255, 0, 0)
    ensures Decode(StripeAt(150)) == Rgb(0, 255, 0)
    ensures Decode(StripeAt(250)) == Rgb(0, 0, 255)
  {
  }
}
