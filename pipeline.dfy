/** The fixed sequence that `main` runs once an image is at hand: analyse it,
    extract the three channels in the mode the user chose, and save them
    under `test_red.png`, `test_green.png` and `test_blue.png`. */
module Pipeline {
  import opened Pixels
  import opened Extract
  import opened Analyze
  import opened SavePath

  /** The extraction mode for the answer to the colour/grayscale question. */
  function ModeOf(colorMode: bool): (m: Mode)
    ensures m == Color <==> colorMode
  {
    if colorMode then Color else Grayscale
  }

  /** The `baseName` of the output files. */
  const BaseName: string := "test"

  /** `baseName + "_" + channel + ".png"`, the name one channel is saved under. */
  function OutputName(channel: string): (name: string)
    ensures |name| == |BaseName| + |channel| + 5
    ensures name[..|BaseName| + 1] == BaseName + "_"
    ensures name[|BaseName| + 1..|name| - 4] == channel
    ensures name[|name| - 4..] == ".png"
  {
    BaseName + "_" + channel + ".png"
  }

  /** Every output name is written as given, in PNG format. */
  lemma OutputTarget(channel: string)
    ensures Normalise(OutputName(channel)) == Target("png", OutputName(channel))
  {
    NormaliseKeepsPng(BaseName + "_" + channel);
  }

  /** Runs the pipeline on `img`; `targets` are the format and file name each
      of the three `saveImage` calls writes, in order. */
  method Run(img: array2<Word>, colorMode: bool) returns (stats: Stats, red: array2<Word>, green: array2<Word>, blue: array2<Word>, targets: seq<Target>)
    ensures stats == Stats(Analysis(img, Red), Analysis(img, Green), Analysis(img, Blue))
    ensures fresh(red) && fresh(green) && fresh(blue)
    ensures IsExtraction(img, red, Red, ModeOf(colorMode))
    ensures IsExtraction(img, green, Green, ModeOf(colorMode))
    ensures IsExtraction(img, blue, Blue, ModeOf(colorMode))
    ensures targets == [Target("png", OutputName("red")), Target("png", OutputName("green")), Target("png", OutputName("blue"))]
  {
    stats := AnalyzeChannels(img);
    if colorMode {
      red := ExtractRedChannel(img);
      green := ExtractGreenChannel(img);
      blue := ExtractBlueChannel(img);
    } else {
      red := ExtractRedAsGrayscale(img);
      green := ExtractGreenAsGrayscale(img);
      blue := ExtractBlueAsGrayscale(img);
    }
    OutputTarget("red");
    OutputTarget("green");
    OutputTarget("blue");
    targets := [Normalise(OutputName("red")), Normalise(OutputName("green")), Normalise(OutputName("blue"))];
  }
}
