/**
 * Exporting the pitch as an image: the file name rule, the option defaults, and the two flags
 * (`isExporting`, `isExportOpen`) the export menu shows. Rendering and the download itself
 * are the image library's and the browser's: the renderer is a parameter whose result is a
 * data URL, or `None` when it throws.
 */
module UseExport {
  import opened Wrappers

  // ---------------------------------------------------------------------------------------
  // File names

  /**
   * The characters the regular expression class `\s` matches in JavaScript: TAB, LF, VT, FF,
   * CR, SPACE, NO-BREAK SPACE, the Unicode space separators and the two Unicode line and
   * paragraph separators, and the byte order mark.
   */
  const WhitespaceChars: set<char> := {
    '\t', '\n', '\U{000B}', '\U{000C}', '\r', ' ', '\U{00A0}', '\U{1680}',
    '\U{2000}', '\U{2001}', '\U{2002}', '\U{2003}', '\U{2004}', '\U{2005}', '\U{2006}',
    '\U{2007}', '\U{2008}', '\U{2009}', '\U{200A}',
    '\U{2028}', '\U{2029}', '\U{202F}', '\U{205F}', '\U{3000}', '\U{FEFF}'
  }

  predicate IsWhitespace(c: char) {
    c in WhitespaceChars
  }

  predicate NoWhitespace(s: string) {
    forall i | 0 <= i < |s| :: !IsWhitespace(s[i])
  }

  predicate AllWhitespace(s: string) {
    forall i | 0 <= i < |s| :: IsWhitespace(s[i])
  }

  /** `s` without its leading run of whitespace. */
  function SkipWhitespace(s: string): (r: string)
    ensures |r| <= |s|
    ensures s != [] && IsWhitespace(s[0]) ==> |r| < |s|
    decreases |s|
  {
    if s != [] && IsWhitespace(s[0]) then SkipWhitespace(s[1..]) else s
  }

  /** `SkipWhitespace` removes exactly the leading whitespace run: a suffix starting with a non-space. */
  lemma {:induction false} SkipWhitespaceSplits(s: string)
    ensures SkipWhitespace(s) == s[|s| - |SkipWhitespace(s)|..]
    ensures AllWhitespace(s[..|s| - |SkipWhitespace(s)|])
    ensures SkipWhitespace(s) == [] || !IsWhitespace(SkipWhitespace(s)[0])
    decreases |s|
  {
    if s != [] && IsWhitespace(s[0]) {
      SkipWhitespaceSplits(s[1..]);
      var k := |s| - |SkipWhitespace(s)|;
      assert s[1..][|s[1..]| - |SkipWhitespace(s)|..] == s[k..];
      forall i | 0 <= i < k ensures IsWhitespace(s[..k][i]) {
        if i > 0 { assert s[..k][i] == s[1..][..k - 1][i - 1]; }
      }
    }
  }

  /**
   * `name.replace(/\s+/g, '_')`: each maximal run of whitespace becomes one `_`; the result has
   * no whitespace and is no longer than `name`.
   */
  function SanitizeFilename(name: string): (r: string)
    ensures NoWhitespace(r) && |r| <= |name|
    decreases |name|
  {
    if name == [] then []
    else if IsWhitespace(name[0]) then "_" + SanitizeFilename(SkipWhitespace(name))
    else [name[0]] + SanitizeFilename(name[1..])
  }

  /** A name is left as it is exactly when it has no whitespace. */
  lemma {:induction false} SanitizeUnchanged(name: string)
    ensures SanitizeFilename(name) == name <==> NoWhitespace(name)
    decreases |name|
  {
    if name != [] && NoWhitespace(name) {
      assert !IsWhitespace(name[0]);
      assert NoWhitespace(name[1..]) by {
        forall i | 0 <= i < |name[1..]| ensures !IsWhitespace(name[1..][i]) {
          assert name[1..][i] == name[i + 1];
        }
      }
      SanitizeUnchanged(name[1..]);
    }
  }

  /** Sanitizing twice is sanitizing once. */
  lemma SanitizeIdempotent(name: string)
    ensures SanitizeFilename(SanitizeFilename(name)) == SanitizeFilename(name)
  {
    SanitizeUnchanged(SanitizeFilename(name));
  }

  lemma {:induction false} SkipWhitespaceAppend(a: string, b: string)
    ensures AllWhitespace(a) ==> SkipWhitespace(a + b) == SkipWhitespace(b)
    ensures !AllWhitespace(a) ==> SkipWhitespace(a + b) == SkipWhitespace(a) + b
    decreases |a|
  {
    if a == [] {
      assert a + b == b;
    } else {
      assert (a + b)[0] == a[0] && (a + b)[1..] == a[1..] + b;
      if IsWhitespace(a[0]) {
        assert AllWhitespace(a) <==> AllWhitespace(a[1..]) by {
          if AllWhitespace(a[1..]) {
            forall i | 0 <= i < |a| ensures IsWhitespace(a[i]) {
              if i > 0 { assert a[i] == a[1..][i - 1]; }
            }
          }
        }
        SkipWhitespaceAppend(a[1..], b);
      }
    }
  }

  /** A name that starts with whitespace: the run becomes `_` and the rest is sanitized. */
  lemma SanitizeLeadingRun(s: string)
    requires s != [] && IsWhitespace(s[0])
    ensures SanitizeFilename(s) == "_" + SanitizeFilename(SkipWhitespace(s))
    ensures |SkipWhitespace(s)| < |s|
  {
  }

  /**
   * Sanitizing distributes over a concatenation that does not split a whitespace run: one of
   * the two sides has no whitespace at the seam.
   */
  lemma {:induction false} SanitizeAppend(a: string, b: string)
    requires a == [] || b == [] || !IsWhitespace(a[|a| - 1]) || !IsWhitespace(b[0])
    ensures SanitizeFilename(a + b) == SanitizeFilename(a) + SanitizeFilename(b)
    decreases |a|
  {
    if a == [] {
      assert a + b == b;
    } else if !IsWhitespace(a[0]) {
      if a[1..] != [] { assert a[1..][|a[1..]| - 1] == a[|a| - 1]; }
      SanitizeAppend(a[1..], b);
      SanitizeAppendStepChar(a, b);
    } else if AllWhitespace(a) {
      SanitizeWhitespaceThen(a, b);
    } else {
      var rest := SkipWhitespace(a);
      SkipWhitespaceSplits(a);
      assert a[..|a|] == a;
      assert rest[|rest| - 1] == a[|a| - 1];
      SanitizeAppend(rest, b);
      SanitizeAppendStepRun(a, b);
    }
  }

  /** The step of `SanitizeAppend` over a first character that is not whitespace. */
  lemma SanitizeAppendStepChar(a: string, b: string)
    requires a != [] && !IsWhitespace(a[0])
    requires SanitizeFilename(a[1..] + b) == SanitizeFilename(a[1..]) + SanitizeFilename(b)
    ensures SanitizeFilename(a + b) == SanitizeFilename(a) + SanitizeFilename(b)
  {
    var ab := a + b;
    assert ab[0] == a[0] && ab[1..] == a[1..] + b;
    assert SanitizeFilename(ab) == [a[0]] + SanitizeFilename(a[1..] + b);
    assert SanitizeFilename(a) == [a[0]] + SanitizeFilename(a[1..]);
    ConcatAssociates([a[0]], SanitizeFilename(a[1..]), SanitizeFilename(b));
  }

  /** The step of `SanitizeAppend` over a leading whitespace run that is not all of `a`. */
  lemma SanitizeAppendStepRun(a: string, b: string)
    requires a != [] && IsWhitespace(a[0]) && !AllWhitespace(a)
    requires SanitizeFilename(SkipWhitespace(a) + b) == SanitizeFilename(SkipWhitespace(a)) + SanitizeFilename(b)
    ensures SanitizeFilename(a + b) == SanitizeFilename(a) + SanitizeFilename(b)
  {
    var x := SkipWhitespace(a);
    var ab := a + b;
    assert ab[0] == a[0];
    SkipWhitespaceAppend(a, b);
    assert SkipWhitespace(ab) == x + b;
    SanitizeLeadingRun(ab);
    SanitizeLeadingRun(a);
    calc {
      SanitizeFilename(ab);
      "_" + SanitizeFilename(x + b);
      "_" + (SanitizeFilename(x) + SanitizeFilename(b));
      ("_" + SanitizeFilename(x)) + SanitizeFilename(b);
      SanitizeFilename(a) + SanitizeFilename(b);
    }
  }

  /** The case of `SanitizeAppend` where `a` is one whitespace run. */
  lemma SanitizeWhitespaceThen(a: string, b: string)
    requires a != [] && AllWhitespace(a)
    requires b == [] || !IsWhitespace(a[|a| - 1]) || !IsWhitespace(b[0])
    ensures SanitizeFilename(a + b) == SanitizeFilename(a) + SanitizeFilename(b)
  {
    assert IsWhitespace(a[|a| - 1]);
    SanitizeRun(a, b);
    SanitizeRunAlone(a);
  }

  /** A name that is one run of whitespace becomes a single `_`. */
  lemma SanitizeRunAlone(run: string)
    requires run != [] && AllWhitespace(run)
    ensures SanitizeFilename(run) == "_"
  {
    SanitizeRun(run, []);
    assert run + [] == run;
  }

  /** A whole run of whitespace, followed by something else or nothing, becomes a single `_`. */
  lemma SanitizeRun(run: string, b: string)
    requires run != [] && AllWhitespace(run)
    requires b == [] || !IsWhitespace(b[0])
    ensures SanitizeFilename(run + b) == "_" + SanitizeFilename(b)
  {
    SkipWhitespaceAppend(run, b);
    assert (run + b)[0] == run[0];
  }

  lemma ConcatAssociates(a: string, b: string, c: string)
    ensures a + b + c == a + (b + c)
  {
  }

  /**
   * Each maximal whitespace run between two parts becomes one `_`, and the parts are
   * sanitized on their own.
   */
  lemma SanitizeBetween(a: string, run: string, b: string)
    requires run != [] && AllWhitespace(run)
    requires a == [] || !IsWhitespace(a[|a| - 1])
    requires b == [] || !IsWhitespace(b[0])
    ensures SanitizeFilename(a + run + b) == SanitizeFilename(a) + "_" + SanitizeFilename(b)
  {
    var rb := run + b;
    assert SanitizeFilename(a + run + b) == SanitizeFilename(a) + SanitizeFilename(rb) by {
      ConcatAssociates(a, run, b);
      SanitizeAppend(a, rb);
    }
    assert SanitizeFilename(rb) == "_" + SanitizeFilename(b) by {
      SanitizeRun(run, b);
    }
  }

  /** The PNG download name. */
  function PngFileName(filename: string): (r: string)
    ensures NoWhitespace(r)
  {
    SanitizeFilename(filename) + "_lineup.png"
  }

  /** The SVG download name. */
  function SvgFileName(filename: string): (r: string)
    ensures NoWhitespace(r)
  {
    SanitizeFilename(filename) + "_lineup.svg"
  }

  /** The download names are already sanitized and keep the user's name as their stem. */
  lemma FileNamesAreSanitized(filename: string)
    ensures SanitizeFilename(PngFileName(filename)) == PngFileName(filename)
    ensures SanitizeFilename(SvgFileName(filename)) == SvgFileName(filename)
    ensures PngFileName(filename)[..|SanitizeFilename(filename)|] == SanitizeFilename(filename)
    ensures SvgFileName(filename)[..|SanitizeFilename(filename)|] == SanitizeFilename(filename)
  {
    SanitizeUnchanged(PngFileName(filename));
    SanitizeUnchanged(SvgFileName(filename));
  }

  // ---------------------------------------------------------------------------------------
  // Options

  /** The options a caller may pass; `None` is an omitted option. */
  datatype UseExportOptions = UseExportOptions(
    backgroundColor: Option<string>,
    pngQuality: Option<real>,
    pngPixelRatio: Option<real>)

  /** The options in force. */
  datatype ExportSettings = ExportSettings(backgroundColor: string, pngQuality: real, pngPixelRatio: real)

  const DefaultBackgroundColor: string := "#1a1a2e"
  const DefaultPngQuality: real := 1.0
  const DefaultPngPixelRatio: real := 2.0

  /** Each given option is used as given; each omitted one takes its default. */
  function ResolveOptions(options: UseExportOptions): (s: ExportSettings)
    ensures options.backgroundColor.Some? ==> s.backgroundColor == options.backgroundColor.value
    ensures options.backgroundColor.None? ==> s.backgroundColor == DefaultBackgroundColor
    ensures options.pngQuality.Some? ==> s.pngQuality == options.pngQuality.value
    ensures options.pngQuality.None? ==> s.pngQuality == DefaultPngQuality
    ensures options.pngPixelRatio.Some? ==> s.pngPixelRatio == options.pngPixelRatio.value
    ensures options.pngPixelRatio.None? ==> s.pngPixelRatio == DefaultPngPixelRatio
  {
    ExportSettings(
      if options.backgroundColor.Some? then options.backgroundColor.value else DefaultBackgroundColor,
      if options.pngQuality.Some? then options.pngQuality.value else DefaultPngQuality,
      if options.pngPixelRatio.Some? then options.pngPixelRatio.value else DefaultPngPixelRatio)
  }

  /** With no options at all, the defaults are a dark navy background, full quality, double density. */
  lemma NoOptionsGiveDefaults()
    ensures ResolveOptions(UseExportOptions(None, None, None)) == ExportSettings("#1a1a2e", 1.0, 2.0)
  {
  }

  // ---------------------------------------------------------------------------------------
  // The hook's state

  /** What the PNG renderer is asked for. */
  datatype PngRequest = PngRequest(quality: real, pixelRatio: real, backgroundColor: string)

  /** What the SVG renderer is asked for. */
  datatype SvgRequest = SvgRequest(backgroundColor: string)

  /** A started download: the file name and the data URL it points to. */
  datatype Download = Download(fileName: string, href: string)

  class ExportHook {
    const filename: string
    const settings: ExportSettings
    var isExporting: bool
    var isExportOpen: bool

    /** A fresh hook: both flags down. */
    constructor (filename: string, options: UseExportOptions)
      ensures this.filename == filename && settings == ResolveOptions(options)
      ensures !isExporting && !isExportOpen
    {
      this.filename := filename;
      settings := ResolveOptions(options);
      isExporting := false;
      isExportOpen := false;
    }

    /** Opens a closed menu and closes an open one, so toggling twice restores it. */
    method ToggleExportOpen()
      modifies this`isExportOpen
      ensures isExportOpen == !old(isExportOpen)
    {
      isExportOpen := !isExportOpen;
    }

    /** Closes the menu; closing a closed menu changes nothing. */
    method CloseExport()
      modifies this`isExportOpen
      ensures !isExportOpen
    {
      isExportOpen := false;
    }

    /** An export starts: the busy flag goes up while the menu stays as it was. */
    method BeginExport()
      modifies this`isExporting
      ensures isExporting
    {
      isExporting := true;
    }

    /** An export ends, successful or not: the busy flag goes down and the menu closes. */
    method FinishExport()
      modifies this`isExporting, this`isExportOpen
      ensures !isExporting && !isExportOpen
    {
      isExporting := false;
      isExportOpen := false;
    }

    /**
     * With no element to render, nothing happens. Otherwise the export is marked as running,
     * the renderer is asked for a PNG with the settings in force, a successful render starts
     * a download under the sanitized name, and in every case both flags end down.
     */
    method HandleExportPng(elementMounted: bool, toPng: PngRequest -> Option<string>)
      returns (download: Option<Download>)
      modifies this`isExporting, this`isExportOpen
      ensures !elementMounted ==> download == None && isExporting == old(isExporting) && isExportOpen == old(isExportOpen)
      ensures elementMounted ==> !isExporting && !isExportOpen
      ensures elementMounted ==>
                var rendered := toPng(PngRequest(settings.pngQuality, settings.pngPixelRatio, settings.backgroundColor));
                download == if rendered.Some? then Some(Download(PngFileName(filename), rendered.value)) else None
    {
      if !elementMounted {
        return None;
      }
      BeginExport();
      var dataUrl := toPng(PngRequest(settings.pngQuality, settings.pngPixelRatio, settings.backgroundColor));
      if dataUrl.Some? {
        download := Some(Download(PngFileName(filename), dataUrl.value));
      } else {
        download := None;
      }
      FinishExport();
    }

    /** As `HandleExportPng`, for SVG: the renderer gets only the background colour. */
    method HandleExportSvg(elementMounted: bool, toSvg: SvgRequest -> Option<string>)
      returns (download: Option<Download>)
      modifies this`isExporting, this`isExportOpen
      ensures !elementMounted ==> download == None && isExporting == old(isExporting) && isExportOpen == old(isExportOpen)
      ensures elementMounted ==> !isExporting && !isExportOpen
      ensures elementMounted ==>
                var rendered := toSvg(SvgRequest(settings.backgroundColor));
                download == if rendered.Some? then Some(Download(SvgFileName(filename), rendered.value)) else None
    {
      if !elementMounted {
        return None;
      }
      BeginExport();
      var dataUrl := toSvg(SvgRequest(settings.backgroundColor));
      if dataUrl.Some? {
        download := Some(Download(SvgFileName(filename), dataUrl.value));
      } else {
        download := None;
      }
      FinishExport();
    }
  }
}
