/** `analyzeChannels`: one pass over the image keeping, per channel, a running
    sum, minimum (starting at 255) and maximum (starting at 0).

    The sums are Java `long`s and are modelled as unbounded integers;
    PrefixFitsInLong shows that no running sum reaches `2^63` for any image a
    `BufferedImage` can hold, so the `long` accumulators never wrap.  The mean and the printed table are not modelled.
 */
module Analyze {
  import opened Pixels

  /** The three accumulators of one channel. */
  datatype ChannelStats = ChannelStats(sum: int, min: int, max: int)

  /** The nine accumulators, grouped by channel. */
  datatype Stats = Stats(red: ChannelStats, green: ChannelStats, blue: ChannelStats)

  /** `Math.max` on `int`: the larger of the two. */
  function Max(a: int, b: int): (r: int)
    ensures r >= a && r >= b
    ensures r == a || r == b
  {
    if a >= b then a else b
  }

  /** `Math.min` on `int`: the smaller of the two. */
  function Min(a: int, b: int): (r: int)
    ensures r <= a && r <= b
    ensures r == a || r == b
  {
    if a <= b then a else b
  }

  /** The accumulators before any pixel is seen. */
  const Initial := ChannelStats(0, 255, 0)

  /** One loop iteration for one channel: `sum += v; max = Math.max(max, v); min = Math.min(min, v)`.
      The sum grows by the new level; the minimum is at most, and the maximum
      at least, both the old value and the new level, and each becomes one of
      the two. */
  function Step(s: ChannelStats, v: int): (r: ChannelStats)
    ensures r.sum == s.sum + v
    ensures r.min <= s.min && r.min <= v && (r.min == s.min || r.min == v)
    ensures r.max >= s.max && r.max >= v && (r.max == s.max || r.max == v)
  {
    ChannelStats(s.sum + v, Min(s.min, v), Max(s.max, v))
  }

  /** `(y, x)` is a position of the nested loop over `img`: inside a row, or just past the last row. */
  ghost predicate LoopPos(img: array2<Word>, y: int, x: int)
  {
    0 <= y <= img.Length1 && 0 <= x <= img.Length0 && (y == img.Length1 ==> x == 0)
  }

  /** The accumulators of channel `c` once the loop has reached `(y, x)`:
      rows `0 .. y-1` and the first `x` pixels of row `y` have been seen. */
  ghost function Prefix(img: array2<Word>, c: Channel, y: int, x: int): ChannelStats
    reads img
    requires LoopPos(img, y, x)
    decreases y, x
  {
    if x > 0 then Step(Prefix(img, c, y, x - 1), Level(c, img[x - 1, y]))
    else if y > 0 then Prefix(img, c, y - 1, img.Length0)
    else Initial
  }

  /** The accumulators of channel `c` after the whole loop. */
  ghost function Analysis(img: array2<Word>, c: Channel): ChannelStats
    reads img
  {
    Prefix(img, c, img.Length1, 0)
  }

  /** The loop of `analyzeChannels`, with the source's nine accumulators. */
  method AnalyzeChannels(img: array2<Word>) returns (s: Stats)
    ensures s == Stats(Analysis(img, Red), Analysis(img, Green), Analysis(img, Blue))
  {
    var width, height := img.Length0, img.Length1;
    var sumRed, sumGreen, sumBlue := 0, 0, 0;
    var maxRed, maxGreen, maxBlue := 0, 0, 0;
    var minRed, minGreen, minBlue := 255, 255, 255;
    for y := 0 to height
      invariant ChannelStats(sumRed, minRed, maxRed) == Prefix(img, Red, y, 0)
      invariant ChannelStats(sumGreen, minGreen, maxGreen) == Prefix(img, Green, y, 0)
      invariant ChannelStats(sumBlue, minBlue, maxBlue) == Prefix(img, Blue, y, 0)
    {
      for x := 0 to width
        invariant ChannelStats(sumRed, minRed, maxRed) == Prefix(img, Red, y, x)
        invariant ChannelStats(sumGreen, minGreen, maxGreen) == Prefix(img, Green, y, x)
        invariant ChannelStats(sumBlue, minBlue, maxBlue) == Prefix(img, Blue, y, x)
      {
        var rgb := img[x, y];
        var red := Level(Red, rgb);
        var green := Level(Green, rgb);
        var blue := Level(Blue, rgb);

        sumRed := sumRed + red;
        sumGreen := sumGreen + green;
        sumBlue := sumBlue + blue;

        maxRed := Max(maxRed, red);
        maxGreen := Max(maxGreen, green);
        maxBlue := Max(maxBlue, blue);

        minRed := Min(minRed, red);
        minGreen := Min(minGreen, green);
        minBlue := Min(minBlue, blue);
      }
    }
    s := Stats(ChannelStats(sumRed, minRed, maxRed),
               ChannelStats(sumGreen, minGreen, maxGreen),
               ChannelStats(sumBlue, minBlue, maxBlue));
  }

  // ---------------------------------------------------------------------
  // Reference definitions and what the accumulators mean.

  /** Sum of channel `c` over the first `n` pixels of row `y`. */
  ghost function RowSum(img: array2<Word>, c: Channel, y: int, n: int): int
    reads img
    requires 0 <= y < img.Length1 && 0 <= n <= img.Length0
  {
    if n == 0 then 0 else RowSum(img, c, y, n - 1) + Level(c, img[n - 1, y])
  }

  /** Sum of channel `c` over rows `0 .. k-1`. */
  ghost function RowsSum(img: array2<Word>, c: Channel, k: int): int
    reads img
    requires 0 <= k <= img.Length1
  {
    if k == 0 then 0 else RowsSum(img, c, k - 1) + RowSum(img, c, k - 1, img.Length0)
  }

  /** Sum of channel `c` over the whole image. */
  ghost function Total(img: array2<Word>, c: Channel): int
    reads img
  {
    RowsSum(img, c, img.Length1)
  }

  /** Pixel `(i, j)` has been seen once the loop is at `(y, x)`. */
  ghost predicate Seen(img: array2<Word>, y: int, x: int, i: int, j: int)
  {
    0 <= i < img.Length0 && 0 <= j < img.Length1 && (j < y || (j == y && i < x))
  }

  /** No pixel has been seen at `(y, x)`. */
  ghost predicate NoneSeen(img: array2<Word>, y: int, x: int)
  {
    x == 0 && (y == 0 || img.Length0 == 0)
  }

  /** The running sum is the sum of the pixels seen. */
  lemma {:induction false} PrefixSum(img: array2<Word>, c: Channel, y: int, x: int)
    requires LoopPos(img, y, x)
    ensures Prefix(img, c, y, x).sum == RowsSum(img, c, y) + (if x == 0 then 0 else RowSum(img, c, y, x))
    decreases y, x
  {
    if x > 0 {
      PrefixSum(img, c, y, x - 1);
    } else if y > 0 {
      PrefixSum(img, c, y - 1, img.Length0);
    }
  }

  /** The running minimum and maximum bound every pixel seen. */
  lemma {:induction false} PrefixBounds(img: array2<Word>, c: Channel, y: int, x: int)
    requires LoopPos(img, y, x)
    ensures forall i, j :: Seen(img, y, x, i, j) ==>
      Prefix(img, c, y, x).min <= Level(c, img[i, j]) <= Prefix(img, c, y, x).max
    decreases y, x
  {
    var now := Prefix(img, c, y, x);
    if x > 0 {
      PrefixBounds(img, c, y, x - 1);
      var prev := Prefix(img, c, y, x - 1);
      forall i, j | Seen(img, y, x, i, j)
        ensures now.min <= Level(c, img[i, j]) <= now.max
      {
        if !(i == x - 1 && j == y) {
          assert Seen(img, y, x - 1, i, j);
        }
      }
    } else if y > 0 {
      PrefixBounds(img, c, y - 1, img.Length0);
      forall i, j | Seen(img, y, x, i, j)
        ensures now.min <= Level(c, img[i, j]) <= now.max
      {
        assert Seen(img, y - 1, img.Length0, i, j);
      }
    }
  }

  /** Before any pixel the running minimum holds its initial 255; after one, it
      is the level of some pixel seen. */
  lemma {:induction false} PrefixMinAttained(img: array2<Word>, c: Channel, y: int, x: int)
    requires LoopPos(img, y, x)
    ensures NoneSeen(img, y, x) ==> Prefix(img, c, y, x).min == 255
    ensures !NoneSeen(img, y, x) ==>
      exists i, j :: Seen(img, y, x, i, j) && Level(c, img[i, j]) == Prefix(img, c, y, x).min
    decreases y, x
  {
    var now := Prefix(img, c, y, x);
    if x > 0 {
      PrefixMinAttained(img, c, y, x - 1);
      var prev, v := Prefix(img, c, y, x - 1), Level(c, img[x - 1, y]);
      if NoneSeen(img, y, x - 1) || now.min == v {
        assert Seen(img, y, x, x - 1, y) && Level(c, img[x - 1, y]) == now.min;
      } else {
        var i, j :| Seen(img, y, x - 1, i, j) && Level(c, img[i, j]) == prev.min;
        assert Seen(img, y, x, i, j) && Level(c, img[i, j]) == now.min;
      }
    } else if y > 0 {
      PrefixMinAttained(img, c, y - 1, img.Length0);
      if !NoneSeen(img, y, x) {
        var i, j :| Seen(img, y - 1, img.Length0, i, j) && Level(c, img[i, j]) == now.min;
        assert Seen(img, y, x, i, j);
      }
    }
  }

  /** Before any pixel the running maximum holds its initial 0; after one, it
      is the level of some pixel seen. */
  lemma {:induction false} PrefixMaxAttained(img: array2<Word>, c: Channel, y: int, x: int)
    requires LoopPos(img, y, x)
    ensures NoneSeen(img, y, x) ==> Prefix(img, c, y, x).max == 0
    ensures !NoneSeen(img, y, x) ==>
      exists i, j :: Seen(img, y, x, i, j) && Level(c, img[i, j]) == Prefix(img, c, y, x).max
    decreases y, x
  {
    var now := Prefix(img, c, y, x);
    if x > 0 {
      PrefixMaxAttained(img, c, y, x - 1);
      var prev, v := Prefix(img, c, y, x - 1), Level(c, img[x - 1, y]);
      if NoneSeen(img, y, x - 1) || now.max == v {
        assert Seen(img, y, x, x - 1, y) && Level(c, img[x - 1, y]) == now.max;
      } else {
        var i, j :| Seen(img, y, x - 1, i, j) && Level(c, img[i, j]) == prev.max;
        assert Seen(img, y, x, i, j) && Level(c, img[i, j]) == now.max;
      }
    } else if y > 0 {
      PrefixMaxAttained(img, c, y - 1, img.Length0);
      if !NoneSeen(img, y, x) {
        var i, j :| Seen(img, y - 1, img.Length0, i, j) && Level(c, img[i, j]) == now.max;
        assert Seen(img, y, x, i, j);
      }
    }
  }

  /** Each channel's accumulators after the loop: the sum is the sum of that
      component over all pixels; every pixel's component lies between the
      minimum and the maximum; on an image with pixels both are attained, on
      an image without pixels they keep their initial values 255 and 0. */
  lemma AnalysisMeaning(img: array2<Word>, c: Channel)
    ensures Analysis(img, c).sum == Total(img, c)
    ensures forall x, y :: 0 <= x < img.Length0 && 0 <= y < img.Length1 ==>
      Analysis(img, c).min <= Level(c, img[x, y]) <= Analysis(img, c).max
    ensures img.Length0 == 0 || img.Length1 == 0 ==>
      Analysis(img, c).min == 255 && Analysis(img, c).max == 0
    ensures img.Length0 > 0 && img.Length1 > 0 ==>
      (exists x, y :: 0 <= x < img.Length0 && 0 <= y < img.Length1 && Level(c, img[x, y]) == Analysis(img, c).min) &&
      (exists x, y :: 0 <= x < img.Length0 && 0 <= y < img.Length1 && Level(c, img[x, y]) == Analysis(img, c).max)
  {
    var h := img.Length1;
    PrefixSum(img, c, h, 0);
    PrefixBounds(img, c, h, 0);
    PrefixMinAttained(img, c, h, 0);
    PrefixMaxAttained(img, c, h, 0);
    assert forall x, y :: 0 <= x < img.Length0 && 0 <= y < h ==> Seen(img, h, 0, x, y);
  }

  /** A row sum lies between 0 and 255 per pixel. */
  lemma {:induction false} RowSumBounds(img: array2<Word>, c: Channel, y: int, n: int)
    requires 0 <= y < img.Length1 && 0 <= n <= img.Length0
    ensures 0 <= RowSum(img, c, y, n) <= 255 * n
  {
    if n > 0 {
      RowSumBounds(img, c, y, n - 1);
    }
  }

  /** A sum of whole rows lies between 0 and 255 per pixel. */
  lemma {:induction false} RowsSumBounds(img: array2<Word>, c: Channel, k: int)
    requires 0 <= k <= img.Length1
    ensures 0 <= RowsSum(img, c, k) <= 255 * (img.Length0 * k)
  {
    if k > 0 {
      RowsSumBounds(img, c, k - 1);
      RowSumBounds(img, c, k - 1, img.Length0);
      assert img.Length0 * k == img.Length0 * (k - 1) + img.Length0;
    }
  }

  /** `0 <= sum <= 255 * width * height` for every channel. */
  lemma TotalBounds(img: array2<Word>, c: Channel)
    ensures 0 <= Total(img, c) <= 255 * (img.Length0 * img.Length1)
  {
    RowsSumBounds(img, c, img.Length1);
  }

  /** The final sums fit in a `long`: a `BufferedImage` has at most
      `2^31 - 1` pixels, and then every final sum is below `2^63`. */
  lemma SumFitsInLong(img: array2<Word>, c: Channel)
    requires img.Length0 * img.Length1 <= 0x7FFF_FFFF
    ensures 0 <= Analysis(img, c).sum < 0x8000_0000_0000_0000
  {
    AnalysisMeaning(img, c);
    TotalBounds(img, c);
  }

  /** Multiplying by a non-negative factor keeps the order. */
  lemma MulMonotone(w: int, a: int, b: int)
    requires 0 <= w && a <= b
    ensures w * a <= w * b
  {
    assert w * b == w * a + w * (b - a);
  }

  /** The `long` accumulators never wrap: after any prefix of the scan of an
      image with at most `2^31 - 1` pixels, the running sum is below `2^63`. */
  lemma PrefixFitsInLong(img: array2<Word>, c: Channel, y: int, x: int)
    requires img.Length0 * img.Length1 <= 0x7FFF_FFFF
    requires LoopPos(img, y, x)
    ensures 0 <= Prefix(img, c, y, x).sum < 0x8000_0000_0000_0000
  {
    var w, h := img.Length0, img.Length1;
    PrefixSum(img, c, y, x);
    RowsSumBounds(img, c, y);
    if x > 0 {
      RowSumBounds(img, c, y, x);
      MulMonotone(w, y + 1, h);
      assert w * y + x <= w * (y + 1);
    } else {
      MulMonotone(w, y, h);
    }
  }

  /** On an image whose pixels all equal `p`, each row sum is the pixel count times the level. */
  lemma {:induction false} UniformRowSum(img: array2<Word>, c: Channel, p: Word, y: int, n: int)
    requires 0 <= y < img.Length1 && 0 <= n <= img.Length0
    requires forall i, j :: 0 <= i < img.Length0 && 0 <= j < img.Length1 ==> img[i, j] == p
    ensures RowSum(img, c, y, n) == n * Level(c, p)
  {
    if n > 0 {
      UniformRowSum(img, c, p, y, n - 1);
      var v := Level(c, p);
      assert img[n - 1, y] == p;
      assert (n - 1) * v + v == n * v;
    }
  }

  /** On an image whose pixels all equal `p`, a sum of rows is the pixel count times the level. */
  lemma {:induction false} UniformRowsSum(img: array2<Word>, c: Channel, p: Word, k: int)
    requires 0 <= k <= img.Length1
    requires forall i, j :: 0 <= i < img.Length0 && 0 <= j < img.Length1 ==> img[i, j] == p
    ensures RowsSum(img, c, k) == k * (img.Length0 * Level(c, p))
  {
    if k > 0 {
      UniformRowsSum(img, c, p, k - 1);
      UniformRowSum(img, c, p, k - 1, img.Length0);
      var row := img.Length0 * Level(c, p);
      assert (k - 1) * row + row == k * row;
    }
  }

  /** `h * (w * v) == w * h * v`, kept apart from the heap so the solver sees it alone. */
  lemma Regroup(h: int, w: int, v: int)
    ensures h * (w * v) == w * h * v
  {
  }

  /** On a non-empty image of one colour the minimum and maximum are that
      colour's level and the sum is the pixel count times it, so the mean is
      the level too. */
  lemma UniformAnalysis(img: array2<Word>, c: Channel, p: Word)
    requires img.Length0 > 0 && img.Length1 > 0
    requires forall i, j :: 0 <= i < img.Length0 && 0 <= j < img.Length1 ==> img[i, j] == p
    ensures Analysis(img, c) == ChannelStats(img.Length0 * img.Length1 * Level(c, p), Level(c, p), Level(c, p))
  {
    var a, w, h, v := Analysis(img, c), img.Length0, img.Length1, Level(c, p);
    AnalysisMeaning(img, c);
    var x0, y0 :| 0 <= x0 < w && 0 <= y0 < h && Level(c, img[x0, y0]) == a.min;
    var x1, y1 :| 0 <= x1 < w && 0 <= y1 < h && Level(c, img[x1, y1]) == a.max;
    assert img[x0, y0] == p && img[x1, y1] == p;
    UniformRowsSum(img, c, p, h);
    assert a.sum == h * (w * v);
    Regroup(h, w, v);
  }
}
