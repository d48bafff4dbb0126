/**
 * The command line of the quad generator: a region directory, `-o` and an
 * output directory; anything else asks for the usage message. Files are
 * kept as the normalised paths `new File(s)` holds on a Unix file system;
 * the questions `valid()` asks the file system are parameters.
 */
module Args {
  import opened Wrappers

  const DASH := '-'
  const OPT_OUTPUT := "-o"
  const SLASH := '/'

  // ------------------------------------------------------------ file paths

  /** No slash is directly followed by another. */
  predicate NoDoubleSlash(p: string)
  {
    forall i :: 0 <= i < |p| - 1 ==> !(p[i] == SLASH && p[i + 1] == SLASH)
  }

  /** Every run of slashes collapsed to one slash. */
  function CollapseSlashes(s: string): (t: string)
    ensures NoDoubleSlash(t)
    ensures |t| <= |s| && (|t| == 0 <==> |s| == 0)
    ensures |s| > 0 ==> t[0] == s[0] && t[|t| - 1] == s[|s| - 1]
    decreases |s|
  {
    if |s| <= 1 then s
    else if s[0] == SLASH && s[1] == SLASH then CollapseSlashes(s[1..])
    else [s[0]] + CollapseSlashes(s[1..])
  }

  /** A path without doubled slashes has nothing to collapse. */
  lemma {:induction false} CollapseNormal(p: string)
    requires NoDoubleSlash(p)
    ensures CollapseSlashes(p) == p
    decreases |p|
  {
    if |p| > 1 {
      assert NoDoubleSlash(p[1..]) by {
        forall i | 0 <= i < |p[1..]| - 1
          ensures !(p[1..][i] == SLASH && p[1..][i + 1] == SLASH)
        {
          assert p[1..][i] == p[i + 1] && p[1..][i + 1] == p[i + 2];
        }
      }
      CollapseNormal(p[1..]);
      assert p == [p[0]] + p[1..];
    }
  }

  /** Collapsing a path with one more slash: the slash joins a final run, or starts one. */
  lemma {:induction false} CollapseSlashAppended(d: string)
    requires |d| > 0
    ensures d[|d| - 1] == SLASH ==> CollapseSlashes(d + [SLASH]) == CollapseSlashes(d)
    ensures d[|d| - 1] != SLASH ==> CollapseSlashes(d + [SLASH]) == CollapseSlashes(d) + [SLASH]
    decreases |d|
  {
    var e := d + [SLASH];
    if |d| == 1 {
      if d[0] == SLASH {
        assert e[1..] == [SLASH];
      } else {
        assert e == [d[0]] + [SLASH];
      }
    } else {
      assert e[0] == d[0] && e[1] == d[1] && e[1..] == d[1..] + [SLASH];
      CollapseSlashAppended(d[1..]);
      if !(d[0] == SLASH && d[1] == SLASH) {
        assert ([d[0]] + CollapseSlashes(d[1..])) + [SLASH] == [d[0]] + (CollapseSlashes(d[1..]) + [SLASH]);
      }
    }
  }

  /**
   * The path of `new File(s)` under the Unix file system's normalisation:
   * every run of slashes becomes one, and a trailing slash is dropped unless
   * the path is the root "/". `File.equals` compares these paths.
   */
  function FilePath(s: string): (p: string)
    ensures NoDoubleSlash(p)
    ensures |p| > 1 ==> p[|p| - 1] != SLASH
    ensures |p| == 0 <==> |s| == 0
  {
    var t := CollapseSlashes(s);
    if |t| > 1 && t[|t| - 1] == SLASH then t[..|t| - 1] else t
  }

  /** A normalised path is its own normal form, so normalising twice is normalising once. */
  lemma FilePathNormal(p: string)
    requires NoDoubleSlash(p) && (|p| > 1 ==> p[|p| - 1] != SLASH)
    ensures FilePath(p) == p
  {
    CollapseNormal(p);
  }

  /** Normalising is idempotent. */
  lemma FilePathIdempotent(s: string)
    ensures FilePath(FilePath(s)) == FilePath(s)
  {
    FilePathNormal(FilePath(s));
  }

  /** A trailing slash names the same file: `new File(d + "/")` equals `new File(d)`. */
  lemma TrailingSlashSameFile(d: string)
    requires |d| > 0
    ensures FilePath(d + [SLASH]) == FilePath(d)
  {
    CollapseSlashAppended(d);
  }

  /** Doubled and trailing slashes name the same directory; the root stays "/". */
  lemma SlashesSameFile()
    ensures FilePath("a//b/") == FilePath("a/b") == "a/b"
    ensures FilePath("//") == "/"
  {
    assert "b/"[1..] == "/" && CollapseSlashes("b/") == "b/";
    assert "/b/"[1..] == "b/" && CollapseSlashes("/b/") == "/b/";
    assert "//b/"[1..] == "/b/" && CollapseSlashes("//b/") == "/b/";
    assert "a//b/"[1..] == "//b/" && CollapseSlashes("a//b/") == "a/b/";
    assert "/b"[1..] == "b" && CollapseSlashes("/b") == "/b";
    assert "a/b"[1..] == "/b" && CollapseSlashes("a/b") == "a/b";
    assert "//"[1..] == "/" && CollapseSlashes("//") == "/";
    assert "a/b/"[..3] == "a/b";
  }

  /** What the arguments set: the help flag and the two directories (`None` for null). */
  datatype Settings = Settings(showHelp: bool, regionDir: Option<string>, outputDir: Option<string>)

  const DEFAULTS := Settings(false, None, None)

  /** An argument that names the region directory: non-empty and not starting with a dash. */
  predicate IsPlain(s: string)
  {
    |s| > 0 && s[0] != DASH
  }

  /**
   * The settings after reading `args` from the front, starting from `a`:
   * a plain argument sets the region directory, `-o` sets the output
   * directory to the next argument (each as the path `new File` makes of it) (and reads past the end when there is
   * none), anything else sets the help flag.
   */
  function ParseWith(args: seq<string>, a: Settings): (r: Result<Settings>)
    ensures r.Failure? ==> r.error == IndexOutOfBounds
    ensures a.showHelp && r.Success? ==> r.value.showHelp
    decreases |args|
  {
    if args == [] then Success(a)
    else if IsPlain(args[0]) then ParseWith(args[1..], a.(regionDir := Some(FilePath(args[0]))))
    else if args[0] == OPT_OUTPUT then
      if |args| < 2 then Failure(IndexOutOfBounds)
      else ParseWith(args[2..], a.(outputDir := Some(FilePath(args[1]))))
    else ParseWith(args[1..], a.(showHelp := true))
  }

  function Parse(args: seq<string>): Result<Settings>
  {
    ParseWith(args, DEFAULTS)
  }

  /** Arguments read in two parts: when the first part reads through, the second resumes from its settings. */
  lemma {:induction false} ParseConcat(xs: seq<string>, ys: seq<string>, a: Settings)
    requires ParseWith(xs, a).Success?
    ensures ParseWith(xs + ys, a) == ParseWith(ys, ParseWith(xs, a).value)
    decreases |xs|
  {
    if xs != [] {
      assert (xs + ys)[0] == xs[0];
      if IsPlain(xs[0]) {
        assert (xs + ys)[1..] == xs[1..] + ys;
        ParseConcat(xs[1..], ys, a.(regionDir := Some(FilePath(xs[0]))));
      } else if xs[0] == OPT_OUTPUT {
        assert (xs + ys)[1] == xs[1] && (xs + ys)[2..] == xs[2..] + ys;
        ParseConcat(xs[2..], ys, a.(outputDir := Some(FilePath(xs[1]))));
      } else {
        assert (xs + ys)[1..] == xs[1..] + ys;
        ParseConcat(xs[1..], ys, a.(showHelp := true));
      }
    } else {
      assert xs + ys == ys;
    }
  }

  /** The last plain argument wins: appending one replaces the region directory and nothing else. */
  lemma LastRegionWins(xs: seq<string>, s: string)
    requires Parse(xs).Success? && IsPlain(s)
    ensures Parse(xs + [s]) == Success(Parse(xs).value.(regionDir := Some(FilePath(s))))
  {
    ParseConcat(xs, [s], DEFAULTS);
  }

  /** `-o` takes the next argument as the output directory, whatever it looks like. */
  lemma OutputTakesNext(xs: seq<string>, d: string)
    requires Parse(xs).Success?
    ensures Parse(xs + [OPT_OUTPUT, d]) == Success(Parse(xs).value.(outputDir := Some(FilePath(d))))
  {
    ParseConcat(xs, [OPT_OUTPUT, d], DEFAULTS);
    assert [OPT_OUTPUT, d][2..] == [];
  }

  /** A final `-o` reads past the end of the arguments. */
  lemma TrailingOutputFails(xs: seq<string>)
    requires Parse(xs).Success?
    ensures Parse(xs + [OPT_OUTPUT]) == Failure(IndexOutOfBounds)
  {
    ParseConcat(xs, [OPT_OUTPUT], DEFAULTS);
  }

  /** Any other argument, the empty one and `-help` included, sets the help flag and nothing else. */
  lemma OtherSetsHelp(xs: seq<string>, s: string)
    requires Parse(xs).Success? && !IsPlain(s) && s != OPT_OUTPUT
    ensures Parse(xs + [s]) == Success(Parse(xs).value.(showHelp := true))
  {
    ParseConcat(xs, [s], DEFAULTS);
  }

  /** Without `-o` there is no output directory, and the reading never fails. */
  lemma {:induction false} NoOutputOption(args: seq<string>, a: Settings)
    requires OPT_OUTPUT !in args
    ensures ParseWith(args, a).Success? && ParseWith(args, a).value.outputDir == a.outputDir
    decreases |args|
  {
    if args != [] {
      assert OPT_OUTPUT !in args[1..];
      if IsPlain(args[0]) {
        NoOutputOption(args[1..], a.(regionDir := Some(FilePath(args[0]))));
      } else {
        NoOutputOption(args[1..], a.(showHelp := true));
      }
    }
  }

  /** The conventional command line `<region-dir> -o <output-dir>`. */
  lemma UsageLine(region: string, output: string)
    requires IsPlain(region)
    ensures Parse([region, OPT_OUTPUT, output]) == Success(Settings(false, Some(FilePath(region)), Some(FilePath(output))))
  {
    assert Parse([]) == Success(DEFAULTS);
    LastRegionWins([], region);
    assert [] + [region] == [region];
    OutputTakesNext([region], output);
    assert [region] + [OPT_OUTPUT, output] == [region, OPT_OUTPUT, output];
  }

  /**
   * Settings fit for processing: both directories given and different, the
   * region directory an existing directory, the output either missing or a
   * directory.
   */
  predicate Acceptable(a: Settings, regionIsDirectory: bool, outputExists: bool, outputIsDirectory: bool)
  {
    a.regionDir.Some? && a.outputDir.Some? && a.regionDir != a.outputDir &&
    regionIsDirectory && (!outputExists || outputIsDirectory)
  }

  /** The usage line is acceptable exactly when its two paths name different files and the file system agrees. */
  lemma UsageLineAcceptable(region: string, output: string, regionIsDirectory: bool, outputExists: bool, outputIsDirectory: bool)
    requires IsPlain(region)
    ensures var p := Parse([region, OPT_OUTPUT, output]);
      p.Success? && (Acceptable(p.value, regionIsDirectory, outputExists, outputIsDirectory) <==>
        FilePath(region) != FilePath(output) && regionIsDirectory && (!outputExists || outputIsDirectory))
  {
    UsageLine(region, output);
  }

  /** `world/region -o world/region/`: the trailing slash names the same directory, which is refused. */
  lemma SameDirectoryRefused(region: string, regionIsDirectory: bool, outputExists: bool, outputIsDirectory: bool)
    requires IsPlain(region)
    ensures var p := Parse([region, OPT_OUTPUT, region + [SLASH]]);
      p.Success? && !Acceptable(p.value, regionIsDirectory, outputExists, outputIsDirectory)
  {
    UsageLineAcceptable(region, region + [SLASH], regionIsDirectory, outputExists, outputIsDirectory);
    TrailingSlashSameFile(region);
  }

  /** Arguments without `-o` are never acceptable. */
  lemma NoOutputNeverAcceptable(args: seq<string>, regionIsDirectory: bool, outputExists: bool, outputIsDirectory: bool)
    requires OPT_OUTPUT !in args
    ensures Parse(args).Success? && !Acceptable(Parse(args).value, regionIsDirectory, outputExists, outputIsDirectory)
  {
    NoOutputOption(args, DEFAULTS);
  }

  /** `ParsedArgs`: the help flag and the two directories. */
  class ParsedArgs {
    var showHelp: bool
    var regionDir: Option<string>
    var outputDir: Option<string>

    /** `new ParsedArgs()`: no help, no directories. */
    constructor ()
      ensures Current() == DEFAULTS
    {
      showHelp := false;
      regionDir := None;
      outputDir := None;
    }

    function Current(): Settings
      reads this
    {
      Settings(showHelp, regionDir, outputDir)
    }

    /** `showHelp()`: the flag (the usage message it prints is not modelled). */
    function ShowHelp(): (b: bool)
      reads this
      ensures b <==> Current().showHelp
    {
      showHelp
    }

    /** `valid()`, with the three file system answers as parameters. */
    function Valid(regionIsDirectory: bool, outputExists: bool, outputIsDirectory: bool): (ok: bool)
      reads this
      ensures ok <==> Acceptable(Current(), regionIsDirectory, outputExists, outputIsDirectory)
    {
      if regionDir.None? || outputDir.None? then false
      else if regionDir == outputDir then false
      else regionIsDirectory && (!outputExists || outputIsDirectory)
    }
  }

  /** `build(args)`: the arguments read from the front; a final `-o` throws. */
  method Build(args: seq<string>) returns (r: Result<ParsedArgs>)
    ensures r.Failure? <==> Parse(args).Failure?
    ensures r.Failure? ==> r.error == IndexOutOfBounds
    ensures r.Success? ==> (fresh(r.value) && r.value.Current() == Parse(args).value)
  {
    var pa := new ParsedArgs();
    var i := 0;
    while i < |args|
      invariant 0 <= i <= |args|
      invariant ParseWith(args[i..], pa.Current()) == Parse(args)
      invariant fresh(pa)
    {
      var s := args[i];
      assert args[i..][0] == s;
      if |s| > 0 && s[0] != DASH {
        assert args[i..][1..] == args[i + 1..];
        pa.regionDir := Some(FilePath(s));
      } else if s == OPT_OUTPUT {
        i := i + 1;
        if i >= |args| {
          return Failure(IndexOutOfBounds);
        }
        assert args[i - 1..][1] == args[i] && args[i - 1..][2..] == args[i + 1..];
        pa.outputDir := Some(FilePath(args[i]));
      } else {
        assert args[i..][1..] == args[i + 1..];
        pa.showHelp := true;
      }
      i := i + 1;
    }
    assert args[i..] == [];
    return Success(pa);
  }
}
