# RGB channel extractor, modelled in Dafny

The program reads an image, prints per-channel statistics, and writes three images, one per red, green and blue channel. Each output is either the channel alone in its own colour or the channel as a grayscale image. This project models the program's computational core on a decoded pixel buffer:

- **Pixels** (`pixels.dfy`): a packed ARGB pixel is a `bv32`, as returned by `getRGB`. Components are unpacked by shift-and-mask. The per-pixel transform of each extractor is `ExtractPixel`, and it is proved equal to a reference definition on unpacked colours.
- **Extractors** (`extract.dfy`): the image buffer is an `array2<bv32>` indexed `[x, y]`. `ExtractChannel` is the nested loop that all six extractors share, parameterised by channel and mode. It records the positions it writes, in order, and that order is proved to visit every position exactly once. The six source methods are thin wrappers. Each states its own per-pixel formula with the source's literal shifts and masks.
- **Test image** (`testimage.dfy`): the 300 by 200, three-stripe buffer of `createTestImage`.
- **Statistics** (`analyze.dfy`): the accumulator loop of `analyzeChannels`, keeping the nine running sums, minima and maxima. The loop is proved equal to a left-to-right fold `Prefix`. Lemmas about `Prefix` give the meaning of the result:
  - the sum is the total of the component;
  - min and max bound every pixel and are attained;
  - an empty image gives 255 and 0;
  - the sum fits in a Java `long`.
- **Output path** (`savepath.dfy`): the format and file-name choice at the top of `saveImage`, as a pure function `Normalise` returning `(format, path)`.
- **Pipeline** (`pipeline.dfy`): the fixed sequence of `main` once an image is at hand. It analyses the image, extracts three channels in the chosen mode, and computes the format and name each of the three saves uses: `test_red.png`, `test_green.png` and `test_blue.png`, as png. Writing the files is not modelled.

Java's `>>` is arithmetic and Dafny's `>>` on `bv32` is logical. Every right shift in the source is followed by `& 0xFF`, which removes the only bits where the two differ. The left shifts act alike on `int` and `bv32`. So the model computes exactly the Java values. None of the extractors has a `modifies` clause, so the source buffer is provably left unchanged, as in the source, which only calls `getRGB` on it.

## Model

| member | source | states |
|---|---|---|
| Pixels.Component | src/main/java/org/example/Main.java:259-261 | a component unpacked by shift-and-mask never exceeds 0xFF |
| Pixels.Level | src/main/java/org/example/Main.java:259-261 | the `int` intensity of a component lies in [0, 255] |
| Pixels.Isolate | src/main/java/org/example/Main.java:49 | the value packed alone holds that value in its channel's position, 0 in the two other components and 0 alpha |
| Pixels.Gray | src/main/java/org/example/Main.java:124 | the value packed three times holds that value in every component, with 0 alpha |
| Pixels.ExtractPixel | src/main/java/org/example/Main.java:45-50 | the output pixel keeps the selected component; in colour mode the others are 0, in grayscale mode they equal it; alpha is 0 |
| Pixels.ExtractMatchesReference | src/main/java/org/example/Main.java:118-125 | unpacked, the output pixel is the reference colour: (v,0,0)/(0,v,0)/(0,0,v) in colour mode, (v,v,v) in grayscale mode |
| Pixels.ComponentsDetermine | src/main/java/org/example/Main.java:46-49 | two alpha-free pixels with equal components are equal |
| Pixels.LevelInjective | src/main/java/org/example/Main.java:46 | equal integer levels mean equal components |
| Pixels.DecodeInjective | src/main/java/org/example/Main.java:46-49 | two alpha-free pixels that decode to the same colour are the same word |
| Pixels.ComponentIgnoresAlpha | src/main/java/org/example/Main.java:259-261 | the alpha byte never affects an unpacked component |
| Pixels.ExtractIdempotent | src/main/java/org/example/Main.java:45-50 | extracting a pixel twice with the same channel and mode equals extracting it once |
| Pixels.ExtractIgnoresAlpha | src/main/java/org/example/Main.java:45-50 | pixels that differ only in alpha extract to the same output |
| Pixels.ExtractReread | src/main/java/org/example/Main.java:45-50 | re-extracting an output read back with any alpha gives the same output |
| Pixels.ExtractFixesIsolated | src/main/java/org/example/Main.java:45-50 | a pixel whose two other components are 0, with any alpha (0xFF for an opaque image), is returned with only its alpha cleared by colour extraction of c |
| Pixels.GrayscaleFixesGray | src/main/java/org/example/Main.java:120-125 | grayscale extraction of any channel from a grayscale output returns it unchanged |
| Extract.ScanVisitsEachOnce | src/main/java/org/example/Main.java:43-52 | the row-major visit order has w*h entries, all in range, covering every position, with no repeats |
| Extract.Row | src/main/java/org/example/Main.java:44 | the inner loop visits w positions of row y, in increasing x |
| Extract.Scan | src/main/java/org/example/Main.java:43-44 | the nested loop's visit order stays within rows 0 .. h-1 |
| Extract.ExtractChannel | src/main/java/org/example/Main.java:37-55 | a fresh buffer of the same size whose every pixel is ExtractPixel of the source pixel, written in the row-major scan order |
| Extract.ExtractRedChannel | src/main/java/org/example/Main.java:37-55 | same size, and each pixel is `((in >> 16) & 0xFF) << 16` |
| Extract.ExtractGreenChannel | src/main/java/org/example/Main.java:63-81 | same size, and each pixel is `((in >> 8) & 0xFF) << 8` |
| Extract.ExtractBlueChannel | src/main/java/org/example/Main.java:89-107 | same size, and each pixel is `in & 0xFF` |
| Extract.ExtractRedAsGrayscale | src/main/java/org/example/Main.java:112-130 | same size, and each pixel packs the red component v as `(v << 16) \| (v << 8) \| v` |
| Extract.ExtractGreenAsGrayscale | src/main/java/org/example/Main.java:135-153 | same size, and each pixel packs the green component v into all three positions |
| Extract.ExtractBlueAsGrayscale | src/main/java/org/example/Main.java:158-176 | same size, and each pixel packs the blue component v into all three positions |
| Extract.ExtractTwiceIsOnce | src/main/java/org/example/Main.java:37-55 | extracting again from an extractor's output, read back with any alpha, gives identical pixels |
| TestImage.StripeAt | src/main/java/org/example/Main.java:189-198 | the column colour is pure red for x < 100, pure green for x < 200 and pure blue otherwise, alpha 0 |
| TestImage.CreateTestImage | src/main/java/org/example/Main.java:181-205 | a fresh 300 by 200 buffer whose pixel (x, y) is the stripe colour of column x |
| TestImage.StripeProbes | src/main/java/org/example/Main.java:189-198 | columns 50, 150 and 250 are red, green and blue |
| Analyze.AnalyzeChannels | src/main/java/org/example/Main.java:252-275 | the nine accumulators end equal to the fold of Step over all pixels, in row-major order, from sum 0, min 255, max 0 |
| Analyze.PrefixSum | src/main/java/org/example/Main.java:263-265 | after any prefix of the scan, the running sum is the sum of the components seen |
| Analyze.Max | src/main/java/org/example/Main.java:267-269 | `Math.max` is at least both arguments and equals one of them |
| Analyze.Min | src/main/java/org/example/Main.java:271-273 | `Math.min` is at most both arguments and equals one of them |
| Analyze.Step | src/main/java/org/example/Main.java:263-273 | one iteration adds the level to the sum; the min is at most, the max at least, both the old value and the level, and each ends as one of the two |
| Analyze.PrefixBounds | src/main/java/org/example/Main.java:267-273 | after any prefix of the scan, every component seen lies between the running min and max |
| Analyze.PrefixMinAttained | src/main/java/org/example/Main.java:254-273 | the running min is 255 before any pixel, and afterwards equals the component of some pixel seen |
| Analyze.PrefixMaxAttained | src/main/java/org/example/Main.java:253-269 | the running max is 0 before any pixel, and afterwards equals the component of some pixel seen |
| Analyze.AnalysisMeaning | src/main/java/org/example/Main.java:252-275 | sum is the total over all pixels; min ≤ every component ≤ max; an empty image gives min 255 and max 0; on a non-empty image both are attained |
| Analyze.RowSumBounds | src/main/java/org/example/Main.java:263-265 | the sum over n pixels of a row lies in [0, 255·n] |
| Analyze.RowsSumBounds | src/main/java/org/example/Main.java:263-265 | the sum over k rows lies in [0, 255·W·k] |
| Analyze.TotalBounds | src/main/java/org/example/Main.java:252-265 | 0 ≤ sum ≤ 255·W·H |
| Analyze.SumFitsInLong | src/main/java/org/example/Main.java:252 | when W·H fits in an `int`, every final sum is below 2^63 |
| Analyze.PrefixFitsInLong | src/main/java/org/example/Main.java:252-265 | when W·H fits in an `int`, every running sum, after any prefix of the scan, lies in [0, 2^63), so the `long` accumulators never wrap |
| Analyze.UniformRowSum | src/main/java/org/example/Main.java:263-265 | on a uniform image, n pixels of a row sum to n times the component |
| Analyze.UniformRowsSum | src/main/java/org/example/Main.java:263-265 | on a uniform image, k rows sum to k·W times the component |
| Analyze.UniformAnalysis | src/main/java/org/example/Main.java:252-275 | a non-empty uniform image gives sum W·H·v and min = max = v |
| SavePath.LastIndexBelow | src/main/java/org/example/Main.java:214 | the result is -1 or an index below n holding ch, and no ch lies strictly between it and n |
| SavePath.LastIndexOf | src/main/java/org/example/Main.java:214 | `lastIndexOf`: -1 or an index holding ch with no ch after it |
| SavePath.LastIndexOfUnique | src/main/java/org/example/Main.java:214 | a ch with no ch after it is what lastIndexOf returns |
| SavePath.LowerChar | src/main/java/org/example/Main.java:216 | folding never yields an upper-case ASCII letter, maps an upper-case one to its lower-case letter, 32 code points higher, and leaves every other character unchanged |
| SavePath.ToLower | src/main/java/org/example/Main.java:216 | `toLowerCase` keeps the length, turns each upper-case ASCII letter into its lower-case letter and keeps every other character |
| SavePath.Normalise | src/main/java/org/example/Main.java:213-224 | the chosen format is always one of png, jpg, jpeg, bmp |
| SavePath.PngSuffix | src/main/java/org/example/Main.java:220-223 | in a path with `.png` appended, the appended dot is the last one and `png` follows it |
| SavePath.NormaliseKeepsPng | src/main/java/org/example/Main.java:213-221 | a non-empty stem followed by `.png` is kept, with format png |
| SavePath.LowerSupported | src/main/java/org/example/Main.java:216 | the four supported extensions are already lowercase |
| SavePath.NormaliseKeeps | src/main/java/org/example/Main.java:215-221 | with the last dot at index > 0 and a supported lowercased extension, the path is unchanged and the format is that extension |
| SavePath.NormaliseReplaces | src/main/java/org/example/Main.java:215-221 | with the last dot at index > 0 and an unsupported extension, the path becomes the prefix before that dot plus `.png`, format png |
| SavePath.NormaliseAppends | src/main/java/org/example/Main.java:215-224 | with no dot, or the only dot at index 0, `.png` is appended, format png |
| SavePath.NormaliseExtensionMatches | src/main/java/org/example/Main.java:213-224 | the chosen path has a last dot, and the text after it lowercases to the chosen format |
| SavePath.NormaliseIdempotent | src/main/java/org/example/Main.java:213-224 | normalising again the path chosen for a non-empty path changes nothing |
| SavePath.NormaliseEmpty | src/main/java/org/example/Main.java:215-224 | the empty path becomes `.png` and `.png` becomes `.png.png`, the one exception to idempotence |
| SavePath.NormaliseExampleBare | src/main/java/org/example/Main.java:222-224 | `out` becomes `out.png` as png |
| SavePath.NormaliseExampleGif | src/main/java/org/example/Main.java:215-221 | `out.gif` becomes `out.png` as png |
| SavePath.NormaliseExampleJpg | src/main/java/org/example/Main.java:215-221 | `out.JPG` is kept, with format jpg |
| SavePath.NormaliseDirectoryDot | src/main/java/org/example/Main.java:214-220 | the last dot is searched in the whole path: `my.dir/out` becomes `my.png` |
| Pipeline.ModeOf | src/main/java/org/example/Main.java:340-350 | the colour mode is chosen exactly when the user answered for colour; otherwise grayscale |
| Pipeline.OutputName | src/main/java/org/example/Main.java:343-369 | the saved name is `test`, `_`, the channel name and `.png`, in that order |
| Pipeline.OutputTarget | src/main/java/org/example/Main.java:366-368 | every name `test_<channel>.png` is saved as given, in PNG format |
| Pipeline.Run | src/main/java/org/example/Main.java:334-368 | the statistics are those of the image; the three outputs are fresh extractions of red, green and blue in the chosen mode; the computed save targets are test_red.png, test_green.png, test_blue.png as png |

## Left out

- Image I/O (`loadImage`, `ImageIO.read`/`write`, `File`, `fileExists`) is a foreign codec and the file system. The model starts from a decoded pixel buffer, and saving stops at the chosen `(format, path)`.
- The `Scanner` console dialogue in `main` is interactive I/O. The user's colour/grayscale answer is the parameter `colorMode` of `Pipeline.Run`, and choosing between the test image and a loaded file is not modelled.
- The floating-point mean and the `printf` output of `analyzeChannels` are floating point and console output. This includes the division by zero on an empty image. The model keeps the exact sums, minima and maxima.
- The `int` overflow of `width * height` is not modelled. It only feeds the floating-point mean.
- The sums are unbounded integers instead of `long`. Analyze.PrefixFitsInLong shows that every running sum stays below 2^63 whenever W·H fits in an `int`, so the model agrees with the Java values at every step.
- `BufferedImage` storage is not modelled: the image types `TYPE_INT_RGB` and `TYPE_BYTE_GRAY`, and the colour-space conversion that `setRGB` performs on a gray image. An output buffer holds the packed values passed to `setRGB`.
- The alpha reporting in `loadImage` is informational output only.
- SavePath.ToLower folds only ASCII letters, where `String.toLowerCase` follows Unicode and the default locale. The folded extension is only compared with png, jpg, jpeg and bmp, and kept as the format when it equals one of them, so only the folding of ASCII letters matters. Locales that fold `I` differently, such as Turkish, are not modelled.
- Extract.ExtractTwiceIsOnce assumes the re-read buffer carries the written pixels up to alpha, which holds for `TYPE_INT_RGB`. The model says nothing about re-reading a `TYPE_BYTE_GRAY` output, whose stored value is a converted gray byte.
