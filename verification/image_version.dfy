/** Choosing the container image tag from the build version
    (internal/version/version.go): a clean semantic version, with or
    without a leading "v", pins the image to that release; anything else
    follows "latest". */
module ImageVersion {
  import opened Wrappers
  import opened Text

  const ImageBase: string := "ghcr.io/frostyard/ubuntu-intune"

  /** One or more ASCII digits (the regular expression's `\d+`). */
  predicate DigitRun(s: string) {
    |s| > 0 && AllAsciiDigits(s)
  }

  /** `major.minor.patch`: exactly three dot-separated digit runs. */
  predicate IsCore(s: string) {
    var parts := Split(s, '.');
    |parts| == 3 && DigitRun(parts[0]) && DigitRun(parts[1]) && DigitRun(parts[2])
  }

  /** The submatch of `^v?(\d+\.\d+\.\d+)$`: the version without its
      optional leading "v", when the whole text is a clean version. */
  function SemverCore(version: string): (r: Option<string>)
    ensures r.Some? ==> IsCore(r.value)
    ensures r.Some? ==> version == r.value || version == "v" + r.value
  {
    if |version| > 0 && version[0] == 'v' && IsCore(version[1..]) then
      assert version == "v" + version[1..];
      Some(version[1..])
    else if IsCore(version) then Some(version)
    else None
  }

  /** `ImageRef`: the pinned tag `v<core>` for a clean version, otherwise
      `latest`. */
  function ImageRef(version: string): (r: string)
    ensures HasPrefix(r, ImageBase + ":")
    ensures SemverCore(version).None? <==> r == ImageBase + ":latest"
    ensures SemverCore(version).Some? ==> r == ImageBase + ":v" + SemverCore(version).value
  {
    match SemverCore(version)
    case None => ImageBase + ":latest"
    case Some(core) =>
      assert (ImageBase + ":v" + core)[..|ImageBase| + 1] == ImageBase + ":";
      assert (ImageBase + ":v" + core)[|ImageBase| + 1] == 'v';
      ImageBase + ":v" + core
  }

  /** A digit run holds no dot. */
  lemma DigitRunHasNoDot(s: string)
    requires AllAsciiDigits(s)
    ensures '.' !in s
  {
  }

  /** IsCore matches its declarative reading in both directions: the text
      is three digit runs joined by dots. */
  lemma IsCoreIff(s: string)
    ensures IsCore(s) <==>
      exists a, b, c :: DigitRun(a) && DigitRun(b) && DigitRun(c) && s == a + "." + b + "." + c
  {
    if IsCore(s) {
      var parts := Split(s, '.');
      assert parts[1..][1..] == [parts[2]];
      assert JoinWith(parts[1..], ".") == parts[1] + "." + parts[2];
      assert s == parts[0] + "." + JoinWith(parts[1..], ".");
      assert s == parts[0] + "." + parts[1] + "." + parts[2];
    }
    if exists a, b, c :: DigitRun(a) && DigitRun(b) && DigitRun(c) && s == a + "." + b + "." + c {
      var a, b, c :| DigitRun(a) && DigitRun(b) && DigitRun(c) && s == a + "." + b + "." + c;
      CoreOfRuns(a, b, c);
    }
  }

  /** Three digit runs joined by dots form a core. */
  lemma CoreOfRuns(a: string, b: string, c: string)
    requires DigitRun(a) && DigitRun(b) && DigitRun(c)
    ensures Split(a + "." + b + "." + c, '.') == [a, b, c]
    ensures IsCore(a + "." + b + "." + c)
  {
    DigitRunHasNoDot(a);
    DigitRunHasNoDot(b);
    DigitRunHasNoDot(c);
    SplitThree(a, b, c, '.');
    assert a + "." + b + "." + c == a + ['.'] + b + ['.'] + c;
  }

  /** A clean version pins the image to its own tag, whether or not it is
      written with a leading "v". */
  lemma ReleasePinsImage(a: string, b: string, c: string)
    requires DigitRun(a) && DigitRun(b) && DigitRun(c)
    ensures ImageRef(a + "." + b + "." + c) == ImageBase + ":v" + a + "." + b + "." + c
    ensures ImageRef("v" + a + "." + b + "." + c) == ImageBase + ":v" + a + "." + b + "." + c
  {
    var s := a + "." + b + "." + c;
    CoreOfRuns(a, b, c);
    assert s[0] == a[0] && IsAsciiDigit(s[0]);
    CorePinsImage(s);
    assert "v" + a + "." + b + "." + c == "v" + s;
    Reassociate(ImageBase + ":v", a, b, c);
  }

  /** A core pins the image to its own tag, with or without a leading "v". */
  lemma CorePinsImage(s: string)
    requires IsCore(s) && s[0] != 'v'
    ensures ImageRef(s) == ImageBase + ":v" + s
    ensures ImageRef("v" + s) == ImageBase + ":v" + s
  {
    var v := "v" + s;
    assert v[1..] == s;
  }

  lemma Reassociate(h: string, a: string, b: string, c: string)
    ensures h + (a + "." + b + "." + c) == h + a + "." + b + "." + c
  {
  }

  /** Anything after the patch number, such as a pre-release, a further
      dotted component or a git-describe suffix, falls back to `latest`. */
  lemma SuffixFallsBack(a: string, b: string, c: string, suffix: string)
    requires DigitRun(a) && DigitRun(b) && DigitRun(c)
    requires |suffix| > 0 && !IsAsciiDigit(suffix[0])
    ensures ImageRef(a + "." + b + "." + c + suffix) == ImageBase + ":latest"
    ensures ImageRef("v" + a + "." + b + "." + c + suffix) == ImageBase + ":latest"
  {
    var c' := c + suffix;
    assert !DigitRun(c') by {
      assert c'[|c|] == suffix[0];
    }
    NotCoreWhenLastBad(a, b, c');
    var s := a + "." + b + "." + c';
    assert a + "." + b + "." + c + suffix == s;
    assert ("v" + s)[1..] == s;
    assert "v" + a + "." + b + "." + c + suffix == "v" + s;
    assert s[0] == a[0] && IsAsciiDigit(s[0]);
  }

  /** Two digit runs followed by anything that is not a single digit run
      do not form a core: the last part either is not a digit run or
      holds a dot, which makes a fourth part. */
  lemma NotCoreWhenLastBad(a: string, b: string, c: string)
    requires DigitRun(a) && DigitRun(b) && !DigitRun(c)
    ensures !IsCore(a + "." + b + "." + c)
  {
    DigitRunHasNoDot(a);
    DigitRunHasNoDot(b);
    SplitNoSep(b, '.');
    SplitNoSep(a, '.');
    SplitAppend(b, c, '.');
    SplitAppend(a, b + "." + c, '.');
    assert a + "." + b + "." + c == a + ['.'] + (b + ['.'] + c);
    assert Split(a + "." + b + "." + c, '.') == [a, b] + Split(c, '.');
    if '.' in c {
      SplitsInTwo(c, '.');
    } else {
      SplitNoSep(c, '.');
    }
  }

  /** A text holding the separator splits into at least two parts. */
  lemma SplitsInTwo(c: string, sep: char)
    requires sep in c
    ensures |Split(c, sep)| >= 2
  {
    var i :| 0 <= i < |c| && c[i] == sep;
    assert c == c[..i] + [sep] + c[i + 1..];
    SplitAppend(c[..i], c[i + 1..], sep);
  }

  /** A version that does not start with a digit or "v" and a digit, such
      as "dev", "none" or the empty string, falls back to `latest`. */
  lemma NonNumericFallsBack(version: string)
    requires version == "" || (!IsAsciiDigit(version[0]) && (version[0] != 'v' || |version| == 1 || !IsAsciiDigit(version[1])))
    ensures ImageRef(version) == ImageBase + ":latest"
  {
    if version != "" {
      BeforeIsFirstPiece(version, '.');
      if version[0] == 'v' && |version| > 1 {
        BeforeIsFirstPiece(version[1..], '.');
      }
      if version[0] == 'v' && |version| == 1 {
        assert version[1..] == "";
      }
    } else {
      BeforeIsFirstPiece(version, '.');
    }
  }
}
