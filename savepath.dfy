/** The choice of output format and file name at the top of `saveImage`,
    separated from the `ImageIO.write` call that follows it.

    From the path's last `'.'` (when it is not the first character) the
    extension is taken and lowercased; `png`, `jpg`, `jpeg` and `bmp` are
    written under that format with the path unchanged; any other extension is
    replaced by `.png`; a path without such a dot gets `.png` appended.
 */
module SavePath {

  /** The format and the file name that `ImageIO.write` receives. */
  datatype Target = Target(format: string, path: string)

  /** The formats the source accepts from an extension. */
  const Supported: set<string> := {"png", "jpg", "jpeg", "bmp"}

  /** No `ch` occurs in `s` after index `k`. */
  predicate NoneAfter(s: string, ch: char, k: int)
  {
    forall i :: 0 <= i < |s| && k < i ==> s[i] != ch
  }

  /** The index of the last `ch` among the first `n` characters of `s`, or -1,
      searching backwards from `n - 1`. */
  function LastIndexBelow(s: string, ch: char, n: int): (r: int)
    requires 0 <= n <= |s|
    ensures -1 <= r < n
    ensures r >= 0 ==> s[r] == ch
    ensures forall i :: 0 <= i < n && r < i ==> s[i] != ch
  {
    if n == 0 then -1
    else if s[n - 1] == ch then n - 1
    else LastIndexBelow(s, ch, n - 1)
  }

  /** `String.lastIndexOf(char)`: the index of the last `ch` in `s`, or -1 when there is none. */
  function LastIndexOf(s: string, ch: char): (r: int)
    ensures -1 <= r < |s|
    ensures r >= 0 ==> s[r] == ch
    ensures NoneAfter(s, ch, r)
  {
    LastIndexBelow(s, ch, |s|)
  }

  /** The index of a `ch` with no `ch` after it is the result of LastIndexOf. */
  lemma LastIndexOfUnique(s: string, ch: char, k: int)
    requires 0 <= k < |s| && s[k] == ch && NoneAfter(s, ch, k)
    ensures LastIndexOf(s, ch) == k
  {
  }

  /** ASCII case folding of one character: the result is never an upper-case
      ASCII letter, and anything but an upper-case ASCII letter is unchanged. */
  function LowerChar(ch: char): (r: char)
    ensures !('A' <= r <= 'Z')
    ensures !('A' <= ch <= 'Z') ==> r == ch
    ensures 'A' <= ch <= 'Z' ==> r as int - ch as int == 32
  {
    if 'A' <= ch <= 'Z' then (ch as int + 32) as char else ch
  }

  /** `String.toLowerCase`, folding ASCII letters: the result has the same
      length, turns each upper-case ASCII letter into its lower-case letter,
      and keeps every other character. */
  function ToLower(s: string): (r: string)
    ensures |r| == |s|
    ensures forall i :: 0 <= i < |r| ==> !('A' <= r[i] <= 'Z')
    ensures forall i :: 0 <= i < |s| && !('A' <= s[i] <= 'Z') ==> r[i] == s[i]
    ensures forall i :: 0 <= i < |s| && 'A' <= s[i] <= 'Z' ==> r[i] as int == s[i] as int + 32
  {
    seq(|s|, i requires 0 <= i < |s| => LowerChar(s[i]))
  }

  /** The format and path chosen by `saveImage`, as written. */
  function Normalise(filePath: string): (t: Target)
    ensures t.format in Supported
  {
    var lastDot := LastIndexOf(filePath, '.');
    if lastDot > 0 then
      var extension := ToLower(filePath[lastDot + 1..]);
      if extension != "png" && extension != "jpg" && extension != "jpeg" && extension != "bmp" then
        Target("png", filePath[..lastDot] + ".png")
      else
        Target(extension, filePath)
    else
      Target("png", filePath + ".png")
  }

  /** The dot of an appended `.png` is the last one, and `png` follows it. */
  lemma PngSuffix(s: string)
    ensures LastIndexOf(s + ".png", '.') == |s|
    ensures (s + ".png")[|s| + 1..] == "png"
  {
    var t := s + ".png";
    assert t[|s|..] == ".png";
    assert t[|s| + 1..] == t[|s|..][1..];
    assert forall i :: |s| <= i < |t| ==> t[i] == ".png"[i - |s|];
    LastIndexOfUnique(t, '.', |s|);
  }

  /** A name that already ends in `.png` after a non-empty stem is kept, as `png`. */
  lemma NormaliseKeepsPng(stem: string)
    requires stem != ""
    ensures Normalise(stem + ".png") == Target("png", stem + ".png")
  {
    PngSuffix(stem);
    LowerSupported();
  }

  /** The supported extensions are their own lowercase forms. */
  lemma LowerSupported()
    ensures ToLower("png") == "png" && ToLower("jpg") == "jpg"
    ensures ToLower("jpeg") == "jpeg" && ToLower("bmp") == "bmp"
  {
  }

  /** A supported extension after a last dot that is not the first character
      leaves the path unchanged and selects the lowercased extension. */
  lemma NormaliseKeeps(path: string, k: int)
    requires 0 < k < |path| && path[k] == '.' && NoneAfter(path, '.', k)
    requires ToLower(path[k + 1..]) in Supported
    ensures Normalise(path) == Target(ToLower(path[k + 1..]), path)
  {
    LastIndexOfUnique(path, '.', k);
  }

  /** An unsupported extension is replaced by `.png`. */
  lemma NormaliseReplaces(path: string, k: int)
    requires 0 < k < |path| && path[k] == '.' && NoneAfter(path, '.', k)
    requires ToLower(path[k + 1..]) !in Supported
    ensures Normalise(path) == Target("png", path[..k] + ".png")
  {
    LastIndexOfUnique(path, '.', k);
  }

  /** With no dot, or with the only dot at index 0, `.png` is appended. */
  lemma NormaliseAppends(path: string)
    requires NoneAfter(path, '.', 0)
    ensures Normalise(path) == Target("png", path + ".png")
  {
    if |path| > 0 && path[0] == '.' {
      LastIndexOfUnique(path, '.', 0);
    }
  }

  /** The file written always ends in a dot followed by an extension naming
      the chosen format, up to case. */
  lemma NormaliseExtensionMatches(path: string)
    ensures var t := Normalise(path);
      var d := LastIndexOf(t.path, '.');
      0 <= d && ToLower(t.path[d + 1..]) == t.format
  {
    var d := LastIndexOf(path, '.');
    LowerSupported();
    if d > 0 && ToLower(path[d + 1..]) !in Supported {
      PngSuffix(path[..d]);
    } else if d <= 0 {
      PngSuffix(path);
    }
  }

  /** Saving under the name already chosen chooses it again, for every
      non-empty path; the empty path becomes `.png`, whose only dot is at
      index 0, and then `.png.png`. */
  lemma NormaliseIdempotent(path: string)
    requires path != ""
    ensures Normalise(Normalise(path).path) == Normalise(path)
  {
    var d := LastIndexOf(path, '.');
    LowerSupported();
    if d > 0 && ToLower(path[d + 1..]) !in Supported {
      PngSuffix(path[..d]);
    } else if d <= 0 {
      PngSuffix(path);
    }
  }

  /** The empty path is the one exception to idempotence. */
  lemma NormaliseEmpty()
    ensures Normalise("") == Target("png", ".png")
    ensures Normalise(".png") == Target("png", ".png.png")
  {
    NormaliseAppends("");
    NormaliseAppends(".png");
  }

  /** A name without a dot gets `.png` appended. */
  lemma NormaliseExampleBare()
    ensures Normalise("out") == Target("png", "out.png")
  {
    NormaliseAppends("out");
  }

  /** An unsupported extension is replaced. */
  lemma NormaliseExampleGif()
    ensures Normalise("out.gif") == Target("png", "out.png")
  {
    LastIndexOfUnique("out.gif", '.', 3);
    assert "out.gif"[4..] == "gif" && "out.gif"[..3] == "out";
    assert ToLower("gif") == "gif";
    NormaliseReplaces("out.gif", 3);
  }

  /** A supported extension in upper case is kept, and names the format in lower case. */
  lemma NormaliseExampleJpg()
    ensures Normalise("out.JPG") == Target("jpg", "out.JPG")
  {
    LastIndexOfUnique("out.JPG", '.', 3);
    assert "out.JPG"[4..] == "JPG";
    assert ToLower("JPG") == "jpg";
    NormaliseKeeps("out.JPG", 3);
  }

  /** The dot searched for is the last one in the whole path, so a dot in a
      directory name counts when the file name has none: both the directory
      name's tail and the file name are replaced. */
  lemma NormaliseDirectoryDot()
    ensures Normalise("my.dir/out") == Target("png", "my.png")
  {
    LastIndexOfUnique("my.dir/out", '.', 2);
    assert "my.dir/out"[3..] == "dir/out" && "my.dir/out"[..2] == "my";
    assert ToLower("dir/out") == "dir/out";
    NormaliseReplaces("my.dir/out", 2);
  }
}
