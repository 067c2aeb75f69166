/**
 * The string helpers of the engine's C interface: file-extension extraction,
 * output-driver selection (an exact and a case-insensitive variant), the
 * case-insensitive suffix test, and the tables that turn user-supplied names
 * into enumerated codes.
 *
 * Strings are the characters of a C string before its terminator. Case is
 * folded the way `::tolower` does in the C locale: ASCII letters only.
 */
module Interface {
  import opened Base
  import opened RasterTypes

  // ---------------------------------------------------------------------------
  // Case folding

  /** `::tolower` in the C locale. */
  function ToLower(c: char): (l: char)
    ensures !('A' <= l <= 'Z')
    ensures l == c || 'A' <= c <= 'Z'
  {
    if 'A' <= c <= 'Z' then (c as int + 32) as char else c
  }

  /** `std::transform(s.begin(), s.end(), s.begin(), ::tolower)` as a value. */
  function LowerString(s: string): string
  {
    seq(|s|, i requires 0 <= i < |s| => ToLower(s[i]))
  }

  /** `QString::compare(a, b, Qt::CaseInsensitive) == 0`. */
  predicate EqualsIgnoreCase(a: string, b: string)
  {
    |a| == |b| && forall i | 0 <= i < |a| :: ToLower(a[i]) == ToLower(b[i])
  }

  /** Exact (case-sensitive) suffix test. */
  predicate HasSuffix(s: string, suffix: string)
  {
    |suffix| <= |s| && s[|s| - |suffix|..] == suffix
  }

  /** The meaning of `EndsWith`: a suffix test after lower-casing both strings. */
  predicate EndsWithIgnoreCase(full: string, ending: string)
  {
    |ending| <= |full| && EqualsIgnoreCase(full[|full| - |ending|..], ending)
  }

  lemma ToLowerIdempotent(c: char)
    ensures ToLower(ToLower(c)) == ToLower(c)
  {
  }

  // ---------------------------------------------------------------------------
  // ExtractFileExt

  /** The suffix of `s` that starts at its last '.', if there is one. */
  function FileExtension(s: string): Option<string>
    decreases |s|
  {
    if |s| == 0 then None
    else if s[|s| - 1] == '.' then Some(s[|s| - 1..])
    else match FileExtension(s[..|s| - 1])
      case None => None
      case Some(ext) => Some(ext + [s[|s| - 1]])
  }

  /** A string without '.' has no extension. */
  lemma {:induction false} FileExtensionNone(s: string)
    requires '.' !in s
    ensures FileExtension(s) == None
    decreases |s|
  {
    if |s| > 0 {
      assert s[|s| - 1] in s;
      var init := s[..|s| - 1];
      assert forall c | c in init :: c in s;
      FileExtensionNone(init);
    }
  }

  /** The extension starts at the last '.', wherever that is. */
  lemma {:induction false} FileExtensionAt(s: string, k: nat)
    requires k < |s| && s[k] == '.'
    requires forall m | k < m < |s| :: s[m] != '.'
    ensures FileExtension(s) == Some(s[k..])
    decreases |s|
  {
    if k < |s| - 1 {
      var init := s[..|s| - 1];
      FileExtensionAt(init, k);
      assert init[k..] + [s[|s| - 1]] == s[k..];
    }
  }

  /**
   * The extension, when there is one, is a suffix of the name that starts
   * with '.' and holds no other '.'; there is none exactly when the name has
   * no '.'.
   */
  lemma {:induction false} FileExtensionIsLastDot(s: string)
    ensures FileExtension(s).None? <==> '.' !in s
    ensures FileExtension(s).Some? ==>
      var ext := FileExtension(s).value;
      HasSuffix(s, ext) && |ext| >= 1 && ext[0] == '.' && '.' !in ext[1..]
  {
    if '.' in s {
      FileExtensionFound(s);
      FileExtensionShape(s);
    } else {
      FileExtensionNone(s);
    }
  }

  /** A name holding a '.' has an extension. */
  lemma {:induction false} FileExtensionFound(s: string)
    requires '.' in s
    ensures FileExtension(s).Some?
    decreases |s|
  {
    if s[|s| - 1] != '.' {
      var init := s[..|s| - 1];
      assert s == init + [s[|s| - 1]];
      FileExtensionFound(init);
    }
  }

  /** An extension is a suffix of the name that starts with its only '.'. */
  lemma {:induction false} FileExtensionShape(s: string)
    requires FileExtension(s).Some?
    ensures var ext := FileExtension(s).value;
      HasSuffix(s, ext) && |ext| >= 1 && ext[0] == '.' && '.' !in ext[1..]
    decreases |s|
  {
    if s[|s| - 1] != '.' {
      var init, last := s[..|s| - 1], s[|s| - 1];
      FileExtensionShape(init);
      var ext := FileExtension(init).value;
      assert FileExtension(s).value == ext + [last];
      assert (ext + [last])[1..] == ext[1..] + [last];
      assert s[|s| - |ext| - 1..] == init[|init| - |ext|..] + [last];
    }
  }

  /**
   * `ExtractFileExt`: scans backward from the terminator for the last '.'
   * and returns the suffix that starts there, or nothing (NULL).
   */
  method ExtractFileExt(fileName: string) returns (ext: Option<string>)
    ensures ext == FileExtension(fileName)
    ensures ext.None? <==> '.' !in fileName
    ensures ext.Some? ==> HasSuffix(fileName, ext.value) && ext.value[0] == '.'
  {
    var i: int := |fileName|;
    while i >= 0
      invariant -1 <= i <= |fileName|
      invariant forall m | i < m < |fileName| :: fileName[m] != '.'
    {
      // index |fileName| is the terminating NUL, which is never '.'
      if i < |fileName| && fileName[i] == '.' {
        FileExtensionAt(fileName, i);
        FileExtensionIsLastDot(fileName);
        return Some(fileName[i..]);
      }
      i := i - 1;
    }
    assert forall c | c in fileName :: c != '.';
    FileExtensionNone(fileName);
    return None;
  }

  // ---------------------------------------------------------------------------
  // Driver selection

  /** `GetDriverFromFilename`: exact match of the extension, NULL otherwise. */
  function GetDriverFromFilename(fileName: string): Option<Driver>
  {
    match FileExtension(fileName)
    case None => None
    case Some(ext) =>
      if ext == ".tif" then Some(GTiff)
      else if ext == ".img" then Some(HFA)
      else None
  }

  /** The extension of `prefix + "." + tail` is `"." + tail` when `tail` has no '.'. */
  lemma ExtensionOfSuffix(s: string, tail: string)
    requires HasSuffix(s, "." + tail) && '.' !in tail
    ensures FileExtension(s) == Some("." + tail)
  {
    var k := |s| - |tail| - 1;
    assert s[k..] == "." + tail;
    forall m | k < m < |s| ensures s[m] != '.' {
      assert s[m] == tail[m - k - 1];
    }
    FileExtensionAt(s, k);
  }

  /**
   * The exact driver choice: "GTiff" exactly for names ending in ".tif",
   * "HFA" exactly for names ending in ".img", in that case and no other.
   */
  lemma GetDriverFromFilenameExact(fileName: string)
    ensures GetDriverFromFilename(fileName) == Some(GTiff) <==> HasSuffix(fileName, ".tif")
    ensures GetDriverFromFilename(fileName) == Some(HFA) <==> HasSuffix(fileName, ".img")
  {
    FileExtensionIsLastDot(fileName);
    var n := |fileName|;
    if HasSuffix(fileName, ".tif") {
      ExtensionOfSuffix(fileName, "tif");
      assert fileName[n - 1] == 'f';
    } else if HasSuffix(fileName, ".img") {
      ExtensionOfSuffix(fileName, "img");
    } else if FileExtension(fileName).Some? {
      var ext := FileExtension(fileName).value;
      assert HasSuffix(fileName, ext);
      assert ext != ".tif" && ext != ".img";
    }
  }

  /** `std::transform(..., ::tolower)` over a buffer. */
  method ToLowerInPlace(a: array<char>)
    modifies a
    ensures a[..] == LowerString(old(a[..]))
  {
    var i := 0;
    while i < a.Length
      invariant 0 <= i <= a.Length
      invariant forall m | 0 <= m < i :: a[m] == ToLower(old(a[m]))
      invariant forall m | i <= m < a.Length :: a[m] == old(a[m])
    {
      a[i] := ToLower(a[i]);
      i := i + 1;
    }
  }

  /**
   * `EndsWith`: copies both strings, lower-cases the copies in place and
   * compares the tail of the first with the second.
   */
  method EndsWith(full: string, ending: string) returns (r: bool)
    ensures r == EndsWithIgnoreCase(full, ending)
    ensures |ending| == 0 ==> r
    ensures |ending| > |full| ==> !r
  {
    var f := new char[|full|](i requires 0 <= i < |full| => full[i]);
    var e := new char[|ending|](i requires 0 <= i < |ending| => ending[i]);
    assert f[..] == full && e[..] == ending;
    ToLowerInPlace(f);
    ToLowerInPlace(e);
    if f.Length >= e.Length {
      var start := f.Length - e.Length;
      r := f[start..] == e[..];
      assert r == EqualsIgnoreCase(full[start..], ending) by {
        if r {
          forall m | 0 <= m < |ending| ensures ToLower(full[start..][m]) == ToLower(ending[m]) {
            assert f[start..][m] == e[..][m];
          }
        }
        if EqualsIgnoreCase(full[start..], ending) {
          forall m | 0 <= m < |ending| ensures f[start..][m] == e[..][m] {
            assert ToLower(full[start..][m]) == ToLower(ending[m]);
          }
        }
      }
    } else {
      r := false;
    }
  }

  /**
   * `GetDriverFromFileName`: a case-insensitive test for ".tif", then for
   * ".img"; any other name throws, so it never answers NULL.
   */
  function GetDriverFromFileName(fileName: string): (r: Result<Driver, Exception>)
    ensures r.Err? <==> !EndsWithIgnoreCase(fileName, ".tif") && !EndsWithIgnoreCase(fileName, ".img")
    ensures r.Err? ==> r.error == RuntimeError
  {
    if EndsWithIgnoreCase(fileName, ".tif") then Ok(GTiff)
    else if EndsWithIgnoreCase(fileName, ".img") then Ok(HFA)
    else Err(RuntimeError)
  }

  /** Every name the exact selector accepts, the case-insensitive one maps to the same driver. */
  lemma DriverSelectorsAgree(fileName: string)
    ensures GetDriverFromFilename(fileName).Some? ==>
      GetDriverFromFileName(fileName) == Ok(GetDriverFromFilename(fileName).value)
  {
    GetDriverFromFilenameExact(fileName);
    var n := |fileName|;
    if HasSuffix(fileName, ".img") {
      // a name ending in ".img" does not end in ".tif", whatever the case
      assert ToLower(fileName[n - 1]) != ToLower('f');
      assert !EndsWithIgnoreCase(fileName, ".tif");
    }
  }

  /** The two selectors differ on upper-case extensions. */
  lemma DriverSelectorsDifferOnCase()
    ensures GetDriverFromFilename("DEM.TIF") == None
    ensures GetDriverFromFileName("DEM.TIF") == Ok(GTiff)
  {
    var name, ext := "DEM.TIF", ".TIF";
    assert name[3..] == ext;
    FileExtensionAt(name, 3);
    assert ext[1] != ".tif"[1] && ext[1] != ".img"[1];
    assert EqualsIgnoreCase(ext, ".tif") by {
      assert ToLower('T') == 't' && ToLower('I') == 'i' && ToLower('F') == 'f';
    }
  }

  // ---------------------------------------------------------------------------
  // Name -> code tables
  //
  // Each table is a chain of `QString::compare(name, key, Qt::CaseInsensitive) == 0`
  // tests tried in order; no match is the C interface's -1, here `None`.

  /** Lower-casing a name first does not change whether it matches a key. */
  lemma LowerStringMatches(s: string, key: string)
    ensures EqualsIgnoreCase(LowerString(s), key) == EqualsIgnoreCase(s, key)
  {
    forall m | 0 <= m < |s| ensures ToLower(LowerString(s)[m]) == ToLower(s[m]) {
      ToLowerIdempotent(s[m]);
    }
  }

  /** STATS_* codes. */
  datatype StatCode =
    | StatsMean | StatsMedian | StatsMajority | StatsMinority | StatsMaximum
    | StatsMinimum | StatsStd | StatsSum | StatsVariety | StatsRange

  /** The name of each statistic. */
  function StatName(c: StatCode): string
  {
    match c
    case StatsMean => "mean"
    case StatsMedian => "median"
    case StatsMajority => "majority"
    case StatsMinority => "minority"
    case StatsMaximum => "maximum"
    case StatsMinimum => "minimum"
    case StatsStd => "std"
    case StatsSum => "sum"
    case StatsVariety => "variety"
    case StatsRange => "range"
  }

  /** `GetStatFromString`. */
  function GetStatFromString(s: string): (r: Option<StatCode>)
    ensures r.Some? ==> EqualsIgnoreCase(s, StatName(r.value))
  {
    if EqualsIgnoreCase(s, "mean") then Some(StatsMean)
    else if EqualsIgnoreCase(s, "median") then Some(StatsMedian)
    else if EqualsIgnoreCase(s, "majority") then Some(StatsMajority)
    else if EqualsIgnoreCase(s, "minority") then Some(StatsMinority)
    else if EqualsIgnoreCase(s, "maximum") then Some(StatsMaximum)
    else if EqualsIgnoreCase(s, "minimum") then Some(StatsMinimum)
    else if EqualsIgnoreCase(s, "std") then Some(StatsStd)
    else if EqualsIgnoreCase(s, "sum") then Some(StatsSum)
    else if EqualsIgnoreCase(s, "variety") then Some(StatsVariety)
    else if EqualsIgnoreCase(s, "range") then Some(StatsRange)
    else None
  }

  /**
   * Each statistic's name, in any case, gives that statistic's code, so
   * `StatName` and `GetStatFromString` are inverse; a name that is none of
   * the ten gives -1.
   */
  lemma GetStatFromStringNames(s: string, c: StatCode)
    ensures EqualsIgnoreCase(s, StatName(c)) ==> GetStatFromString(s) == Some(c)
  {
    if EqualsIgnoreCase(s, StatName(c)) {
      match c
      case StatsMinority => assert ToLower(s[1]) == 'i';
      case StatsMinimum => assert ToLower(s[1]) == 'i';
      case StatsSum => assert ToLower(s[1]) == 'u';
      case StatsVariety => assert ToLower(s[0]) == 'v';
      case _ =>
    }
  }

  /** The name of every statistic is answered with that statistic. */
  lemma StatNameRoundTrip(c: StatCode)
    ensures GetStatFromString(StatName(c)) == Some(c)
  {
    assert EqualsIgnoreCase(StatName(c), StatName(c));
    GetStatFromStringNames(StatName(c), c);
  }

  /** The answer does not depend on the case of the name. */
  lemma GetStatFromStringIgnoresCase(s: string)
    ensures GetStatFromString(LowerString(s)) == GetStatFromString(s)
  {
    LowerStringMatches(s, "mean");
    LowerStringMatches(s, "median");
    LowerStringMatches(s, "majority");
    LowerStringMatches(s, "minority");
    LowerStringMatches(s, "maximum");
    LowerStringMatches(s, "minimum");
    LowerStringMatches(s, "std");
    LowerStringMatches(s, "sum");
    LowerStringMatches(s, "variety");
    LowerStringMatches(s, "range");
  }

  /**
   * The code `GetStatOperationFromString` gives each name: its table pairs
   * every name after "mean" with the code of a different statistic.
   */
  function StatOperationName(c: StatCode): string
  {
    match c
    case StatsMean => "mean"
    case StatsMedian => "majority"
    case StatsMajority => "maximum"
    case StatsMinority => "median"
    case StatsMaximum => "minimum"
    case StatsMinimum => "minority"
    case StatsStd => "range"
    case StatsSum => "std"
    case StatsVariety => "sum"
    case StatsRange => "variety"
  }

  /** `GetStatOperationFromString`, with its shifted table as written. */
  function GetStatOperationFromString(s: string): (r: Option<StatCode>)
    ensures r.Some? ==> EqualsIgnoreCase(s, StatOperationName(r.value))
  {
    if EqualsIgnoreCase(s, "mean") then Some(StatsMean)
    else if EqualsIgnoreCase(s, "majority") then Some(StatsMedian)
    else if EqualsIgnoreCase(s, "maximum") then Some(StatsMajority)
    else if EqualsIgnoreCase(s, "median") then Some(StatsMinority)
    else if EqualsIgnoreCase(s, "minimum") then Some(StatsMaximum)
    else if EqualsIgnoreCase(s, "minority") then Some(StatsMinimum)
    else if EqualsIgnoreCase(s, "range") then Some(StatsStd)
    else if EqualsIgnoreCase(s, "std") then Some(StatsSum)
    else if EqualsIgnoreCase(s, "sum") then Some(StatsVariety)
    else if EqualsIgnoreCase(s, "variety") then Some(StatsRange)
    else None
  }

  /** `GetStatOperationFromString` accepts exactly the names `GetStatFromString` accepts. */
  lemma GetStatOperationFromStringSameNames(s: string)
    ensures GetStatOperationFromString(s).Some? <==> GetStatFromString(s).Some?
  {
    if GetStatFromString(s).Some? {
      match GetStatFromString(s).value
      case StatsMinority => assert ToLower(s[1]) == 'i';
      case StatsMinimum => assert ToLower(s[1]) == 'i';
      case StatsSum => assert ToLower(s[1]) == 'u';
      case StatsVariety => assert ToLower(s[0]) == 'v';
      case _ =>
    }
  }

  /**
   * Only "mean" is given the code of the statistic it names;
   * "maximum", for one, gives STATS_MAJORITY.
   */
  lemma GetStatOperationFromStringShifted(c: StatCode)
    ensures GetStatOperationFromString(StatName(c)) == Some(c) <==> c == StatsMean
    ensures GetStatOperationFromString("maximum") == Some(StatsMajority)
  {
    var n := StatName(c);
    assert EqualsIgnoreCase(n, n);
    match c
    case StatsMinority => assert ToLower(n[1]) == 'i';
    case StatsMinimum => assert ToLower(n[1]) == 'i';
    case StatsSum => assert ToLower(n[1]) == 'u';
    case StatsVariety => assert ToLower(n[0]) == 'v';
    case _ =>
    assert EqualsIgnoreCase("maximum", "maximum");
  }

  /**
   * RM_BASIC_MATH_* codes; `MathStd` stands for the statistics code
   * STATS_STD, which is what the source returns for "std".
   */
  datatype MathOp =
    | MathAdd | MathSubtract | MathMultiply | MathDivide | MathSqrt | MathPower
    | MathStd | MathThresholdPropError

  function MathOpName(op: MathOp): string
  {
    match op
    case MathAdd => "add"
    case MathSubtract => "subtract"
    case MathMultiply => "multiply"
    case MathDivide => "divide"
    case MathSqrt => "sqrt"
    case MathPower => "power"
    case MathStd => "std"
    case MathThresholdPropError => "threshproperr"
  }

  /** `GetMathOpFromString`. */
  function GetMathOpFromString(s: string): (r: Option<MathOp>)
    ensures r.Some? ==> EqualsIgnoreCase(s, MathOpName(r.value))
  {
    if EqualsIgnoreCase(s, "add") then Some(MathAdd)
    else if EqualsIgnoreCase(s, "subtract") then Some(MathSubtract)
    else if EqualsIgnoreCase(s, "multiply") then Some(MathMultiply)
    else if EqualsIgnoreCase(s, "divide") then Some(MathDivide)
    else if EqualsIgnoreCase(s, "sqrt") then Some(MathSqrt)
    else if EqualsIgnoreCase(s, "power") then Some(MathPower)
    else if EqualsIgnoreCase(s, "std") then Some(MathStd)
    else if EqualsIgnoreCase(s, "threshproperr") then Some(MathThresholdPropError)
    else None
  }

  /**
   * Each operation name, in any case, gives its code; "std" gives the
   * statistics code, the one `GetStatFromString` gives for it.
   */
  lemma GetMathOpFromStringNames(s: string, op: MathOp)
    ensures EqualsIgnoreCase(s, MathOpName(op)) ==> GetMathOpFromString(s) == Some(op)
    ensures EqualsIgnoreCase(s, "std") ==>
      GetMathOpFromString(s) == Some(MathStd) && GetStatFromString(s) == Some(StatsStd)
  {
    if EqualsIgnoreCase(s, MathOpName(op)) {
      match op
      case MathSubtract => assert ToLower(s[0]) == 's';
      case MathSqrt => assert ToLower(s[0]) == 's';
      case MathStd => assert ToLower(s[0]) == 's';
      case _ =>
    }
    if EqualsIgnoreCase(s, "std") {
      assert ToLower(s[0]) == 's' && ToLower(s[1]) == 't';
      GetStatFromStringNames(s, StatsStd);
    }
  }

  /** FILL_* codes. */
  datatype FillMethod = FillMinCost | FillBal | FillCut

  function FillMethodName(f: FillMethod): string
  {
    match f
    case FillMinCost => "mincost"
    case FillBal => "bal"
    case FillCut => "cut"
  }

  /** `GetFillMethodFromString`. */
  function GetFillMethodFromString(s: string): (r: Option<FillMethod>)
    ensures r.Some? ==> EqualsIgnoreCase(s, FillMethodName(r.value))
  {
    if EqualsIgnoreCase(s, "mincost") then Some(FillMinCost)
    else if EqualsIgnoreCase(s, "bal") then Some(FillBal)
    else if EqualsIgnoreCase(s, "cut") then Some(FillCut)
    else None
  }

  /** Each fill-method name, in any case, gives its code. */
  lemma GetFillMethodFromStringNames(s: string, f: FillMethod)
    ensures EqualsIgnoreCase(s, FillMethodName(f)) ==> GetFillMethodFromString(s) == Some(f)
  {
    if EqualsIgnoreCase(s, FillMethodName(f)) && f == FillCut {
      assert ToLower(s[0]) == 'c';
    }
  }

  /** GSS_* symbology styles. */
  datatype SymbologyStyle =
    | GssDem | GssDoD | GssError | GssHlsd | GssPtDens | GssSlopeDeg | GssSlopePer

  function SymbologyStyleName(g: SymbologyStyle): string
  {
    match g
    case GssDem => "DEM"
    case GssDoD => "DoD"
    case GssError => "Error"
    case GssHlsd => "HillShade"
    case GssPtDens => "PointDensity"
    case GssSlopeDeg => "SlopeDeg"
    case GssSlopePer => "SlopePC"
  }

  /** `GetSymbologyStyleFromString`. */
  function GetSymbologyStyleFromString(s: string): (r: Option<SymbologyStyle>)
    ensures r.Some? ==> EqualsIgnoreCase(s, SymbologyStyleName(r.value))
  {
    if EqualsIgnoreCase(s, "DEM") then Some(GssDem)
    else if EqualsIgnoreCase(s, "DoD") then Some(GssDoD)
    else if EqualsIgnoreCase(s, "Error") then Some(GssError)
    else if EqualsIgnoreCase(s, "HillShade") then Some(GssHlsd)
    else if EqualsIgnoreCase(s, "PointDensity") then Some(GssPtDens)
    else if EqualsIgnoreCase(s, "SlopeDeg") then Some(GssSlopeDeg)
    else if EqualsIgnoreCase(s, "SlopePC") then Some(GssSlopePer)
    else None
  }

  /** Each style name, in any case, gives its style. */
  lemma GetSymbologyStyleFromStringNames(s: string, g: SymbologyStyle)
    ensures EqualsIgnoreCase(s, SymbologyStyleName(g)) ==> GetSymbologyStyleFromString(s) == Some(g)
  {
    if EqualsIgnoreCase(s, SymbologyStyleName(g)) {
      match g
      case GssDoD => assert ToLower(s[1]) == 'o';
      case GssSlopePer => assert ToLower(s[5]) == 'p';
      case _ =>
    }
  }
}
