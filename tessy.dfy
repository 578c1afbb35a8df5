/**
 * The module-level state of the wrapper (`_config`, `_tempfiles`, the process
 * environment and the warnings it emits) as one `Session` object, with the
 * setters, `configure`, `image_to_file`, `image_to_string` and `clear_temp`
 * as methods that update it.
 */
module Tessy {
  import opened Wrappers
  import opened Text
  import opened Lang
  import opened Command

  /** A warning the wrapper emits through `warnings.warn`; the message text is not modelled. */
  datatype Warning =
    | InvalidCommand(cmd: string)
    | InvalidDataDir(dir: string)
    | InvalidSeparator(sep: string)
    | InvalidArguments(names: seq<string>)
    | DataDirUnset
    | UnsupportedFormat
    | CopyFailed(source: string, target: string)
    | UnsupportedImage
    | ImportFailed
    | ConfigUnparsed
    | EngineFailed(errors: string)
    | PdfUnsupported
    | ReadFailed(path: string)

  const DataPrefixVar := "TESSDATA_PREFIX"

  /** The three configuration fields and the process environment. */
  datatype Config = Config(command: string, dataDir: Option<string>, contentSep: string, env: map<string, string>)

  /** The configuration the module starts with. */
  function Defaults(env: map<string, string>): (c: Config)
    ensures c.command == "tesseract" && c.dataDir == None && c.contentSep == "||||" && c.env == env
  {
    Config("tesseract", None, "||||", env)
  }

  /** A configuration change and the warnings it emitted. */
  datatype Step = Step(config: Config, warned: seq<Warning>)

  /** `set_command(cmd)`: a non-empty command is stored stripped, an empty one only warns. */
  function SetCommandStep(c: Config, cmd: string): Step {
    if cmd != "" then Step(c.(command := Strip(cmd)), []) else Step(c, [InvalidCommand(cmd)])
  }

  /** `set_data_dir(datadir, update_env)`: an existing directory is stored and, if asked, exported. */
  function SetDataDirStep(c: Config, dir: string, dirs: set<string>, updateEnv: bool): Step {
    if dir in dirs then
      Step(c.(dataDir := Some(dir), env := if updateEnv then c.env[DataPrefixVar := dir] else c.env), [])
    else Step(c, [InvalidDataDir(dir)])
  }

  /** `set_content_sep(sep)`: a non-empty separator is stored as given. */
  function SetContentSepStep(c: Config, sep: string): Step {
    if sep != "" then Step(c.(contentSep := sep), []) else Step(c, [InvalidSeparator(sep)])
  }

  /** A repeated `set_command` with the same value changes nothing more; the stored command is stripped. */
  lemma SetCommandSettles(c: Config, cmd: string)
    ensures var once := SetCommandStep(c, cmd);
      && SetCommandStep(once.config, cmd).config == once.config
      && (cmd != "" ==> once.config.command == Strip(cmd) && Strip(once.config.command) == once.config.command)
      && (once.warned == [] <==> cmd != "")
      && once.config.(command := c.command) == c
  {
    StripIdempotent(cmd);
  }

  /** Which setter a `configure` keyword reaches: the first of the three names it contains. */
  datatype KeyRole = CommandKey | DataDirKey | ContentSepKey | InvalidKey

  function Role(key: string): KeyRole {
    if HasSubstring(key, "command") then CommandKey
    else if HasSubstring(key, "data_dir") then DataDirKey
    else if HasSubstring(key, "content_sep") then ContentSepKey
    else InvalidKey
  }

  /** One keyword of `configure`. */
  function ApplyOption(c: Config, key: string, value: string, dirs: set<string>): Step {
    match Role(key)
    case CommandKey => SetCommandStep(c, value)
    case DataDirKey => SetDataDirStep(c, value, dirs, true)
    case ContentSepKey => SetContentSepStep(c, value)
    case InvalidKey => Step(c, [])
  }

  /** The keywords of `configure`, applied in order. */
  function ApplyOptions(c: Config, kw: seq<(string, string)>, dirs: set<string>): Step
    decreases |kw|
  {
    if kw == [] then Step(c, [])
    else
      var before := ApplyOptions(c, kw[..|kw| - 1], dirs);
      var last := ApplyOption(before.config, kw[|kw| - 1].0, kw[|kw| - 1].1, dirs);
      Step(last.config, before.warned + last.warned)
  }

  /** The keywords `configure` rejects, in order. */
  function InvalidKeys(kw: seq<(string, string)>): seq<string>
    decreases |kw|
  {
    if kw == [] then []
    else InvalidKeys(kw[..|kw| - 1]) + (if Role(kw[|kw| - 1].0) == InvalidKey then [kw[|kw| - 1].0] else [])
  }

  /** One more keyword applies its setter to the configuration so far and adds its warnings. */
  lemma OptionsStep(c: Config, kw: seq<(string, string)>, i: nat, dirs: set<string>)
    requires i < |kw|
    ensures var before := ApplyOptions(c, kw[..i], dirs);
      var last := ApplyOption(before.config, kw[i].0, kw[i].1, dirs);
      && ApplyOptions(c, kw[..i + 1], dirs) == Step(last.config, before.warned + last.warned)
      && InvalidKeys(kw[..i + 1]) == InvalidKeys(kw[..i]) + (if Role(kw[i].0) == InvalidKey then [kw[i].0] else [])
  {
    assert kw[..i + 1][..i] == kw[..i];
  }

  /** The rejected keywords are exactly the keywords that name none of the three settings. */
  lemma {:induction false} InvalidKeysMeaning(kw: seq<(string, string)>)
    ensures forall k :: k in InvalidKeys(kw) <==> Role(k) == InvalidKey && exists i :: 0 <= i < |kw| && kw[i].0 == k
    ensures InvalidKeys(kw) == [] <==> forall i :: 0 <= i < |kw| ==> Role(kw[i].0) != InvalidKey
    decreases |kw|
  {
    if kw != [] {
      var init := kw[..|kw| - 1];
      InvalidKeysMeaning(init);
      forall k ensures k in InvalidKeys(kw) <==> Role(k) == InvalidKey && exists i :: 0 <= i < |kw| && kw[i].0 == k {
        if Role(k) == InvalidKey && exists i :: 0 <= i < |kw| && kw[i].0 == k {
          var i :| 0 <= i < |kw| && kw[i].0 == k;
          if i < |kw| - 1 { assert init[i].0 == k; }
        }
        if k in InvalidKeys(init) {
          var i :| 0 <= i < |init| && init[i].0 == k;
          assert kw[i].0 == k;
        }
      }
      if InvalidKeys(kw) == [] {
        forall i | 0 <= i < |kw| ensures Role(kw[i].0) != InvalidKey {
          if i < |kw| - 1 { assert init[i] == kw[i]; }
        }
      }
      if forall i :: 0 <= i < |kw| ==> Role(kw[i].0) != InvalidKey {
        assert forall i :: 0 <= i < |init| ==> Role(init[i].0) != InvalidKey by {
          forall i | 0 <= i < |init| ensures Role(init[i].0) != InvalidKey { assert init[i] == kw[i]; }
        }
      }
    }
  }

  /** Without a keyword that reaches `set_command`, `configure` leaves the command as it was. */
  lemma {:induction false} ApplyOptionsKeepsCommand(c: Config, kw: seq<(string, string)>, dirs: set<string>)
    requires forall i :: 0 <= i < |kw| ==> Role(kw[i].0) != CommandKey
    ensures ApplyOptions(c, kw, dirs).config.command == c.command
    decreases |kw|
  {
    if kw != [] {
      var init := kw[..|kw| - 1];
      assert forall i :: 0 <= i < |init| ==> init[i] == kw[i];
      ApplyOptionsKeepsCommand(c, init, dirs);
    }
  }

  /** Without a keyword that reaches `set_data_dir`, the data directory and the environment stay. */
  lemma {:induction false} ApplyOptionsKeepsDataDir(c: Config, kw: seq<(string, string)>, dirs: set<string>)
    requires forall i :: 0 <= i < |kw| ==> Role(kw[i].0) != DataDirKey
    ensures ApplyOptions(c, kw, dirs).config.dataDir == c.dataDir
    ensures ApplyOptions(c, kw, dirs).config.env == c.env
    decreases |kw|
  {
    if kw != [] {
      var init := kw[..|kw| - 1];
      assert forall i :: 0 <= i < |init| ==> init[i] == kw[i];
      ApplyOptionsKeepsDataDir(c, init, dirs);
    }
  }

  /** Without a keyword that reaches `set_content_sep`, the separator stays. */
  lemma {:induction false} ApplyOptionsKeepsSeparator(c: Config, kw: seq<(string, string)>, dirs: set<string>)
    requires forall i :: 0 <= i < |kw| ==> Role(kw[i].0) != ContentSepKey
    ensures ApplyOptions(c, kw, dirs).config.contentSep == c.contentSep
    decreases |kw|
  {
    if kw != [] {
      var init := kw[..|kw| - 1];
      assert forall i :: 0 <= i < |init| ==> init[i] == kw[i];
      ApplyOptionsKeepsSeparator(c, init, dirs);
    }
  }

  /** A word longer than the text cannot occur in it. */
  lemma {:induction false} NotInPrefixes(s: string, sub: string)
    requires |sub| > |s|
    ensures !HasSubstring(s, sub)
    decreases |s|
  {
    if s != [] {
      NotInPrefixes(s[1..], sub);
    }
  }

  /** Lines 322-328: no data directory configured, none passed in `config`, none in the environment. */
  predicate DataDirMissing(c: Config, config: Option<string>) {
    && (c.dataDir.None? || c.dataDir.value == "")
    && !(config.Some? && config.value != "" && HasSubstring(config.value, "--tessdata-dir"))
    && DataPrefixVar !in c.env
  }

  /**
   * Any of the three ways of naming the data directory silences the warning; in
   * particular after a successful `set_data_dir` that updates the environment.
   */
  lemma DataDirWarningSilenced(c: Config, config: Option<string>, dir: string, dirs: set<string>)
    ensures config.Some? && HasSubstring(config.value, "--tessdata-dir") ==> !DataDirMissing(c, config)
    ensures DataPrefixVar in c.env ==> !DataDirMissing(c, config)
    ensures dir in dirs ==> !DataDirMissing(SetDataDirStep(c, dir, dirs, true).config, config)
  {
  }

  // ---------------------------------------------------------------------------
  // image_to_file and image_to_string
  // ---------------------------------------------------------------------------

  /**
   * The `image` argument: a path that was (or was not) copied to the temporary input
   * file, or an image object whose library was (or was not) recognised and imported.
   */
  datatype ImageSource =
    | PathImage(path: string, copied: bool)
    | ObjectImage(recognised: bool, imported: bool)

  /** What the engine run reports, and which files exist once it has finished. */
  datatype EngineRun = EngineRun(status: Option<int>, errors: Option<string>, existing: set<string>)

  /** The answer of `image_to_file` (Ok(None) is `False`), the paths it tracks, the warnings it emits. */
  datatype FileRun = FileRun(result: Result<Option<seq<string>>, PyError>, tracked: seq<string>, warned: seq<Warning>)

  /** The extra arguments from `config`: its tokens, or none when it is empty or cannot be tokenised. */
  function ExtraTokens(config: Option<string>, parsed: Option<seq<string>>): seq<string> {
    if config.Some? && config.value != "" && parsed.Some? then parsed.value else []
  }

  /**
   * Lines 485-512 of `image_to_file` after the engine has run: the existing outputs
   * to return and track after a zero status, otherwise the engine's errors to report.
   */
  function RunOutcome(outFile: string, fmts: seq<string>, run: EngineRun): FileRun {
    if run.status == Some(0) then
      var outs := CollectOutputs(run.status, outFile, fmts, run.existing);
      FileRun(Ok(outs), if outs.Some? then outs.value else [], [])
    else
      var errors := ParseErrors(run.errors);
      FileRun(Ok(None), [], if errors.Some? && errors.value != "" then [EngineFailed(errors.value)] else [])
  }

  /**
   * Lines 405-512 of `image_to_file` once the input file exists: track it, build the
   * command, run it, then collect the outputs or report the engine's errors.
   */
  function EngineStage(c: Config, tempIn: string, outFile: string, fmts: seq<string>,
                       lang: Option<LangValue>, config: Option<string>, parsed: Option<seq<string>>,
                       windows: bool, engine: string -> EngineRun): FileRun
  {
    var w := ConfigWarnings(config, parsed);
    match CommandSpec(c.command, tempIn, outFile, windows, ExtraTokens(config, parsed), lang, fmts)
    case Err(e) => FileRun(Err(e), [tempIn], w)
    case Ok(line) =>
      var o := RunOutcome(outFile, fmts, engine(line));
      FileRun(o.result, [tempIn] + o.tracked, w + o.warned)
  }

  /** The warning for a `config` that cannot be tokenised. */
  function ConfigWarnings(config: Option<string>, parsed: Option<seq<string>>): seq<Warning> {
    if config.Some? && config.value != "" && parsed.None? then [ConfigUnparsed] else []
  }

  /** The warnings `image_to_file` emits before it looks at the image. */
  function PreludeWarnings(c: Config, req: FormatRequest, config: Option<string>): seq<Warning> {
    (if DataDirMissing(c, config) then [DataDirUnset] else [])
    + (if req.FormatOther? then [UnsupportedFormat] else [])
  }

  /** Lines 370-403: the warnings about the image: a failed copy, an unknown library, a failed import. */
  function ImageWarnings(image: ImageSource, tempIn: string): seq<Warning> {
    match image
    case PathImage(path, copied) => if copied then [] else [CopyFailed(path, tempIn)]
    case ObjectImage(recognised, imported) =>
      if !recognised then [UnsupportedImage] else if !imported then [ImportFailed] else []
  }

  /** An image object whose library is unknown or cannot be imported ends the call with False. */
  predicate ImageUsable(image: ImageSource) {
    image.PathImage? || (image.recognised && image.imported)
  }

  /** What `image_to_file` does in configuration `c`; `engine` maps a command line to its run. */
  function FileRunSpec(c: Config, image: ImageSource, outBase: Option<string>, tempIn: string, tempOut: string,
                       req: FormatRequest, lang: Option<LangValue>, config: Option<string>,
                       parsed: Option<seq<string>>, windows: bool, inputReady: bool,
                       engine: string -> EngineRun): FileRun
  {
    var w := PreludeWarnings(c, req, config) + ImageWarnings(image, tempIn);
    if !ImageUsable(image) || !inputReady then FileRun(Ok(None), [], w)
    else
      var outFile := if outBase.Some? then outBase.value else tempOut;
      var e := EngineStage(c, tempIn, outFile, NormalizeFormats(req), lang, config, parsed, windows, engine);
      FileRun(e.result, e.tracked, w + e.warned)
  }

  /** Appending to a log in two steps or in one gives the same log. */
  lemma ConcatAssoc<T>(a: seq<T>, b: seq<T>, c: seq<T>)
    ensures a + (b + c) == (a + b) + c
  {
  }

  /** `image_to_file` returns False after the image checks when it cannot go on. */
  lemma FileRunStops(c: Config, image: ImageSource, outBase: Option<string>, tempIn: string, tempOut: string,
                     req: FormatRequest, lang: Option<LangValue>, config: Option<string>,
                     parsed: Option<seq<string>>, windows: bool, inputReady: bool,
                     engine: string -> EngineRun)
    requires !(ImageUsable(image) && inputReady)
    ensures FileRunSpec(c, image, outBase, tempIn, tempOut, req, lang, config, parsed, windows, inputReady, engine)
            == FileRun(Ok(None), [], PreludeWarnings(c, req, config) + ImageWarnings(image, tempIn))
  {
  }

  /** Once the input file exists, `image_to_file` is its engine stage after the earlier warnings. */
  lemma FileRunRuns(c: Config, image: ImageSource, outBase: Option<string>, tempIn: string, tempOut: string,
                    req: FormatRequest, lang: Option<LangValue>, config: Option<string>,
                    parsed: Option<seq<string>>, windows: bool, inputReady: bool,
                    engine: string -> EngineRun)
    requires ImageUsable(image) && inputReady
    ensures var e := EngineStage(c, tempIn, if outBase.Some? then outBase.value else tempOut, NormalizeFormats(req),
                                 lang, config, parsed, windows, engine);
      FileRunSpec(c, image, outBase, tempIn, tempOut, req, lang, config, parsed, windows, inputReady, engine)
      == FileRun(e.result, e.tracked, PreludeWarnings(c, req, config) + ImageWarnings(image, tempIn) + e.warned)
  {
  }

  /**
   * The input file is tracked as soon as it exists, before anything can raise; a
   * tuple of outputs is returned only after a zero exit status, holds only existing
   * `"{base}.{fmt}"` paths for requested tags, and is tracked right after the input.
   * The data-directory warning comes first and exactly when no data directory is known.
   */
  lemma FileRunMeaning(c: Config, image: ImageSource, outBase: Option<string>, tempIn: string, tempOut: string,
                       req: FormatRequest, lang: Option<LangValue>, config: Option<string>,
                       parsed: Option<seq<string>>, windows: bool, inputReady: bool,
                       engine: string -> EngineRun)
    ensures var f := FileRunSpec(c, image, outBase, tempIn, tempOut, req, lang, config, parsed, windows, inputReady, engine);
      var outFile := if outBase.Some? then outBase.value else tempOut;
      var fmts := NormalizeFormats(req);
      && (f.tracked != [] <==> inputReady && (image.PathImage? || (image.recognised && image.imported)))
      && (f.tracked != [] ==> f.tracked[0] == tempIn)
      && (f.result.Err? ==> f.tracked == [tempIn])
      && (f.result.Ok? && f.result.value.Some? ==>
            var line := CommandSpec(c.command, tempIn, outFile, windows, ExtraTokens(config, parsed), lang, fmts);
            && line.Ok? && engine(line.value).status == Some(0)
            && f.tracked == [tempIn] + f.result.value.value
            && f.result.value.value != []
            && forall p :: p in f.result.value.value ==>
                 p in engine(line.value).existing && exists i :: 0 <= i < |fmts| && p == outFile + "." + fmts[i])
      && (|f.warned| > 0 && f.warned[0] == DataDirUnset <==> DataDirMissing(c, config))
  {
    var outFile := if outBase.Some? then outBase.value else tempOut;
    if ImageUsable(image) && inputReady {
      FileRunRuns(c, image, outBase, tempIn, tempOut, req, lang, config, parsed, windows, inputReady, engine);
      EngineStageMeaning(c, tempIn, outFile, NormalizeFormats(req), lang, config, parsed, windows, engine);
    } else {
      FileRunStops(c, image, outBase, tempIn, tempOut, req, lang, config, parsed, windows, inputReady, engine);
    }
  }

  /**
   * The engine stage tracks the input file first; a raised error tracks nothing more,
   * and a tuple of outputs comes from a zero status and is tracked after the input.
   * It never emits the data-directory warning.
   */
  lemma EngineStageMeaning(c: Config, tempIn: string, outFile: string, fmts: seq<string>,
                           lang: Option<LangValue>, config: Option<string>, parsed: Option<seq<string>>,
                           windows: bool, engine: string -> EngineRun)
    ensures var e := EngineStage(c, tempIn, outFile, fmts, lang, config, parsed, windows, engine);
      && e.tracked != [] && e.tracked[0] == tempIn
      && (e.result.Err? ==> e.tracked == [tempIn])
      && (e.result.Ok? && e.result.value.Some? ==>
            var line := CommandSpec(c.command, tempIn, outFile, windows, ExtraTokens(config, parsed), lang, fmts);
            && line.Ok? && engine(line.value).status == Some(0)
            && e.tracked == [tempIn] + e.result.value.value
            && e.result.value.value != []
            && forall p :: p in e.result.value.value ==>
                 p in engine(line.value).existing && exists i :: 0 <= i < |fmts| && p == outFile + "." + fmts[i])
      && DataDirUnset !in e.warned
  {
    var line := CommandSpec(c.command, tempIn, outFile, windows, ExtraTokens(config, parsed), lang, fmts);
    if line.Ok? {
      var run := engine(line.value);
      CollectOutputsMeaning(run.status, outFile, fmts, run.existing);
    }
  }

  /** The answer of `image_to_string`, the paths it tracks and the warnings it emits. */
  datatype StringRun = StringRun(result: Result<Option<string>, PyError>, tracked: seq<string>, warned: seq<Warning>)

  /**
   * Line 521: `output_format and "pdf" in output_format` — a substring test on a str,
   * an element test on a list or tuple, the type's own test on another container
   * (a set or a dict, say); on a truthy value without one `in` raises.
   */
  function PdfRequested(req: FormatRequest): Result<bool, PyError> {
    match req
    case FormatText(s) => Ok(s != "" && HasSubstring(s, "pdf"))
    case FormatList(items) => Ok(items != [] && "pdf" in items)
    case FormatOther(truthy, hasPdf) =>
      if !truthy then Ok(false)
      else if hasPdf.Some? then Ok(hasPdf.value)
      else Err(NotContainer)
  }

  /** The stripped content of a file, "" when it cannot be read. */
  function ReadText(contents: map<string, string>, path: string): string {
    if path in contents then Strip(contents[path]) else ""
  }

  function Texts(files: seq<string>, contents: map<string, string>): (texts: seq<string>)
    ensures |texts| == |files|
    ensures forall i :: 0 <= i < |files| ==> texts[i] == ReadText(contents, files[i])
  {
    seq(|files|, i requires 0 <= i < |files| => ReadText(contents, files[i]))
  }

  /** One warning per file among the first `n` that cannot be read, in order. */
  function ReadWarnings(files: seq<string>, contents: map<string, string>, n: nat): seq<Warning>
    requires n <= |files|
  {
    if n == 0 then []
    else ReadWarnings(files, contents, n - 1) + (if files[n - 1] in contents then [] else [ReadFailed(files[n - 1])])
  }

  /** Lines 532-546 of `image_to_string`: the string made from what `image_to_file` answered. */
  function TextResult(outFiles: Result<Option<seq<string>>, PyError>, sep: string, contents: map<string, string>)
    : Result<Option<string>, PyError>
  {
    match outFiles
    case Err(e) => Err(e)
    case Ok(None) => Ok(None)
    case Ok(Some(files)) => Ok(if files == [] then None else Some(Join(sep, Texts(files, contents))))
  }

  /** The warnings reading the output files emits. */
  function TextWarnings(outFiles: Result<Option<seq<string>>, PyError>, contents: map<string, string>): seq<Warning> {
    if outFiles.Ok? && outFiles.value.Some? then ReadWarnings(outFiles.value.value, contents, |outFiles.value.value|) else []
  }

  /** What `image_to_string` does in configuration `c`; `contents` is what each readable file holds. */
  function StringRunSpec(c: Config, image: ImageSource, outBase: Option<string>, tempIn: string, tempOut: string,
                         req: FormatRequest, lang: Option<LangValue>, config: Option<string>,
                         parsed: Option<seq<string>>, windows: bool, inputReady: bool,
                         engine: string -> EngineRun, contents: map<string, string>): StringRun
  {
    match PdfRequested(req)
    case Err(e) => StringRun(Err(e), [], [])
    case Ok(true) => StringRun(Ok(None), [], [PdfUnsupported])
    case Ok(false) =>
      var f := FileRunSpec(c, image, outBase, tempIn, tempOut, req, lang, config, parsed, windows, inputReady, engine);
      StringRun(TextResult(f.result, c.contentSep, contents), f.tracked, f.warned + TextWarnings(f.result, contents))
  }

  /**
   * A str request is refused exactly when it holds "pdf", a list exactly when one
   * element is "pdf"; the test is case-sensitive and runs before normalisation, so
   * "PDF" is not refused although it normalises to the tag "pdf".
   */
  lemma PdfRequestedMeaning(req: FormatRequest)
    ensures req.FormatText? ==> (PdfRequested(req) == Ok(true) <==> HasSubstring(req.s, "pdf"))
    ensures req.FormatList? ==> (PdfRequested(req) == Ok(true) <==> "pdf" in req.items)
    ensures req.FormatOther? ==> (PdfRequested(req).Err? <==> req.truthy && req.hasPdf.None?)
    ensures req.FormatOther? && req.truthy && req.hasPdf.Some? ==> PdfRequested(req) == Ok(req.hasPdf.value)
    ensures req.FormatOther? && !req.truthy ==> PdfRequested(req) == Ok(false)
    ensures PdfRequested(FormatText("PDF")) == Ok(false) && "pdf" in NormalizeFormats(FormatText("PDF"))
  {
    NoPdfInUpper();
    var l := Lower("PDF");
    assert l == "pdf" by {
      assert l[0] == 'p' && l[1] == 'd' && l[2] == 'f';
    }
    assert !HasSubstring("pdf", " ") by {
      assert !HasSubstring("f", " ") by { assert !HasSubstring("", " "); }
      assert "f" == "pdf"[2..] && "df" == "pdf"[1..];
    }
    ReplaceAbsent("pdf", " ", "");
  }

  lemma NoPdfInUpper()
    ensures !HasSubstring("PDF", "pdf")
  {
    var s := "PDF";
    assert !StartsWith(s, "pdf") by { assert s[..3][0] == 'P'; }
    NotInPrefixes(s[1..], "pdf");
  }

  /** What a sweep over listed paths did: the paths it removed, in order, and the files left. */
  datatype Cleanup = Cleanup(removed: seq<string>, left: set<string>)

  /** The loop of `clear_temp`: each listed path that is still a file is removed. */
  function Sweep(list: seq<string>, files: set<string>): Cleanup
    decreases |list|
  {
    if list == [] then Cleanup([], files)
    else
      var before := Sweep(list[..|list| - 1], files);
      var p := list[|list| - 1];
      if p in before.left then Cleanup(before.removed + [p], before.left - {p}) else before
  }

  /**
   * A sweep removes exactly the listed paths that were files, each of them once, and
   * leaves every other file in place; when no path is listed twice, it removes the
   * existing ones in list order.
   */
  lemma {:induction false} SweepMeaning(list: seq<string>, files: set<string>)
    ensures var c := Sweep(list, files);
      && (forall p :: p in c.left <==> p in files && p !in list)
      && (forall p :: p in c.removed <==> p in files && p in list)
      && Distinct(c.removed)
      && (Distinct(list) ==> c.removed == Existing(list, files))
    decreases |list|
  {
    if list != [] {
      var init := list[..|list| - 1];
      var p := list[|list| - 1];
      assert list == init + [p];
      SweepMeaning(init, files);
      var before := Sweep(init, files);
      forall x ensures x in list <==> x in init || x == p {
        assert x in init + [p] <==> x in init || x == p;
      }
      if p in before.left {
        DistinctAppend(before.removed, [p]);
      }
      if Distinct(list) {
        assert Distinct(init) by {
          forall a, b | 0 <= a < b < |init| ensures init[a] != init[b] {
            assert init[a] == list[a] && init[b] == list[b];
          }
        }
        assert p !in init by {
          forall a | 0 <= a < |init| ensures init[a] != p {
            assert init[a] == list[a];
          }
        }
        ExistingSnoc(init, p, files);
      }
    }
  }

  /** The text the loop has built after the first n files. */
  function Assembled(sep: string, texts: seq<string>, n: nat): string
    requires n <= |texts|
  {
    if n == 0 then "" else Assembled(sep, texts, n - 1) + texts[n - 1] + (if n < |texts| then sep else "")
  }

  /**
   * After n files the text is the first n contents joined by the separator, then
   * one more separator unless every file is done.
   */
  lemma {:induction false} AssembledJoin(sep: string, texts: seq<string>, n: nat)
    requires 1 <= n <= |texts|
    ensures Assembled(sep, texts, n) == Join(sep, texts[..n]) + (if n < |texts| then sep else "")
  {
    if n == 1 {
      assert texts[..1] == [texts[0]];
    } else {
      AssembledJoin(sep, texts, n - 1);
      JoinSnoc(sep, texts[..n - 1], texts[n - 1]);
      assert texts[..n] == texts[..n - 1] + [texts[n - 1]];
    }
  }

  /** Once every file is read, the text is the separator-join of all contents. */
  lemma AssembledAll(sep: string, texts: seq<string>)
    ensures Assembled(sep, texts, |texts|) == Join(sep, texts)
  {
    if texts != [] {
      AssembledJoin(sep, texts, |texts|);
      assert texts[..|texts|] == texts;
    }
  }

  /**
   * Lines 538-546: for n files the string holds each file's stripped content in order
   * with the separator between consecutive files: exactly n - 1 separators, none
   * trailing, and an unreadable or empty file adds "".
   */
  lemma AssembledText(sep: string, files: seq<string>, contents: map<string, string>)
    requires files != []
    ensures var text := Join(sep, Texts(files, contents));
      && |text| == TotalLength(Texts(files, contents)) + (|files| - 1) * |sep|
      && (|files| == 1 ==> text == ReadText(contents, files[0]))
      && (|files| > 1 ==> text == ReadText(contents, files[0]) + sep + Join(sep, Texts(files[1..], contents)))
  {
    JoinLength(sep, Texts(files, contents));
    assert Texts(files, contents)[1..] == Texts(files[1..], contents);
  }

  // ---------------------------------------------------------------------------
  // The session
  // ---------------------------------------------------------------------------

  /** The wrapper's module state. */
  class Session {
    var command: string
    var dataDir: Option<string>
    var contentSep: string
    var env: map<string, string>
    /** `_tempfiles`: the temporary files this session created and has not cleared. */
    var tempFiles: seq<string>
    /** Every warning emitted so far. */
    var warnings: seq<Warning>

    function Current(): Config
      reads this
    {
      Config(command, dataDir, contentSep, env)
    }

    constructor (environment: map<string, string>)
      ensures Current() == Defaults(environment)
      ensures tempFiles == [] && warnings == []
    {
      command := "tesseract";
      dataDir := None;
      contentSep := "||||";
      env := environment;
      tempFiles := [];
      warnings := [];
    }

    /** `set_command(cmd)` with `check_runnable` and `write_cache` off. */
    method SetCommand(cmd: string)
      modifies this
      ensures Current() == SetCommandStep(old(Current()), cmd).config
      ensures warnings == old(warnings) + SetCommandStep(old(Current()), cmd).warned
      ensures tempFiles == old(tempFiles)
    {
      if cmd != "" {
        command := Strip(cmd);
      } else {
        warnings := warnings + [InvalidCommand(cmd)];
      }
    }

    /** `set_data_dir(datadir, update_env)`; `dirs` are the existing directories. */
    method SetDataDir(dir: string, dirs: set<string>, updateEnv: bool)
      modifies this
      ensures Current() == SetDataDirStep(old(Current()), dir, dirs, updateEnv).config
      ensures warnings == old(warnings) + SetDataDirStep(old(Current()), dir, dirs, updateEnv).warned
      ensures tempFiles == old(tempFiles)
    {
      if dir in dirs {
        dataDir := Some(dir);
        if updateEnv {
          env := env[DataPrefixVar := dir];
        }
      } else {
        warnings := warnings + [InvalidDataDir(dir)];
      }
    }

    /** `set_content_sep(sep)` */
    method SetContentSep(sep: string)
      modifies this
      ensures Current() == SetContentSepStep(old(Current()), sep).config
      ensures warnings == old(warnings) + SetContentSepStep(old(Current()), sep).warned
      ensures tempFiles == old(tempFiles)
    {
      if sep != "" {
        contentSep := sep;
      } else {
        warnings := warnings + [InvalidSeparator(sep)];
      }
    }

    /**
     * `configure(**kw)`: each keyword is dispatched on the first setting name it
     * contains; the call succeeds when there was at least one keyword and every one
     * was recognised, and otherwise warns once with the rejected names.
     */
    method Configure(kw: seq<(string, string)>, dirs: set<string>) returns (ok: bool)
      modifies this
      ensures Current() == ApplyOptions(old(Current()), kw, dirs).config
      ensures ok <==> kw != [] && InvalidKeys(kw) == []
      ensures warnings == old(warnings) + ApplyOptions(old(Current()), kw, dirs).warned
                          + (if ok then [] else [InvalidArguments(if kw == [] then ["<unspecified>"] else InvalidKeys(kw))])
      ensures tempFiles == old(tempFiles)
    {
      var invalid: seq<string> := [];
      for i := 0 to |kw|
        invariant Current() == ApplyOptions(old(Current()), kw[..i], dirs).config
        invariant warnings == old(warnings) + ApplyOptions(old(Current()), kw[..i], dirs).warned
        invariant invalid == InvalidKeys(kw[..i])
        invariant tempFiles == old(tempFiles)
      {
        OptionsStep(old(Current()), kw, i, dirs);
        ghost var before := ApplyOptions(old(Current()), kw[..i], dirs);
        var (key, value) := kw[i];
        ApplyKeyword(key, value, dirs);
        ConcatAssoc(old(warnings), before.warned, ApplyOption(before.config, key, value, dirs).warned);
        if Role(key) == InvalidKey {
          invalid := invalid + [key];
        }
      }
      assert kw[..|kw|] == kw;
      if kw == [] {
        invalid := ["<unspecified>"];
      }
      ok := true;
      if invalid != [] {
        ok := false;
        warnings := warnings + [InvalidArguments(invalid)];
      }
    }

    /** Lines 285-292: one keyword of `configure`, passed to the setter its name reaches. */
    method ApplyKeyword(key: string, value: string, dirs: set<string>)
      modifies this
      ensures Current() == ApplyOption(old(Current()), key, value, dirs).config
      ensures warnings == old(warnings) + ApplyOption(old(Current()), key, value, dirs).warned
      ensures tempFiles == old(tempFiles)
    {
      match Role(key) {
        case CommandKey => SetCommand(value);
        case DataDirKey => SetDataDir(value, dirs, true);
        case ContentSepKey => SetContentSep(value);
        case InvalidKey =>
      }
    }

    /**
     * `image_to_file`: `tempIn` and `tempOut` are the generated temporary names,
     * `parsed` the tokens of `config` (None when it cannot be tokenised), `inputReady`
     * whether the input file exists after copying or preparing the image, and
     * `engine` the run of each command line.
     */
    method ImageToFile(image: ImageSource, outBase: Option<string>, tempIn: string, tempOut: string,
                       req: FormatRequest, lang: Option<LangValue>, config: Option<string>,
                       parsed: Option<seq<string>>, windows: bool, inputReady: bool,
                       engine: string -> EngineRun)
      returns (r: Result<Option<seq<string>>, PyError>)
      modifies this
      ensures var f := FileRunSpec(old(Current()), image, outBase, tempIn, tempOut, req, lang, config, parsed,
                                   windows, inputReady, engine);
        && r == f.result
        && tempFiles == old(tempFiles) + f.tracked
        && warnings == old(warnings) + f.warned
      ensures Current() == old(Current())
    {
      ghost var c0 := old(Current());
      ghost var w0 := old(warnings);
      ghost var prelude := PreludeWarnings(c0, req, config) + ImageWarnings(image, tempIn);
      var outFile := if outBase.Some? then outBase.value else tempOut;
      var fmts := NormalizeFormats(req);
      WarnPrelude(req, config);
      var usable := CheckImage(image, tempIn);
      ConcatAssoc(w0, PreludeWarnings(c0, req, config), ImageWarnings(image, tempIn));
      assert warnings == w0 + prelude;
      r := Ok(None);
      if usable && inputReady {
        r := RunEngine(tempIn, outFile, fmts, lang, config, parsed, windows, engine);
        ghost var e := EngineStage(c0, tempIn, outFile, fmts, lang, config, parsed, windows, engine);
        ConcatAssoc(w0, prelude, e.warned);
        FileRunRuns(c0, image, outBase, tempIn, tempOut, req, lang, config, parsed, windows, inputReady, engine);
      } else {
        FileRunStops(c0, image, outBase, tempIn, tempOut, req, lang, config, parsed, windows, inputReady, engine);
      }
    }

    /** Lines 322-368: the data-directory warning, then the unsupported-format warning. */
    method WarnPrelude(req: FormatRequest, config: Option<string>)
      modifies this
      ensures warnings == old(warnings) + PreludeWarnings(old(Current()), req, config)
      ensures Current() == old(Current()) && tempFiles == old(tempFiles)
    {
      if DataDirMissing(Current(), config) {
        warnings := warnings + [DataDirUnset];
      }
      if req.FormatOther? {
        warnings := warnings + [UnsupportedFormat];
      }
    }

    /** Lines 370-403: copy or prepare the image; says whether the call goes on. */
    method CheckImage(image: ImageSource, tempIn: string) returns (usable: bool)
      modifies this
      ensures usable == ImageUsable(image)
      ensures warnings == old(warnings) + ImageWarnings(image, tempIn)
      ensures Current() == old(Current()) && tempFiles == old(tempFiles)
    {
      usable := true;
      if image.PathImage? {
        if !image.copied {
          warnings := warnings + [CopyFailed(image.path, tempIn)];
        }
      } else {
        if !image.recognised {
          warnings := warnings + [UnsupportedImage];
          return false;
        }
        if !image.imported {
          warnings := warnings + [ImportFailed];
          return false;
        }
      }
    }

    /** The part of `image_to_file` that follows the check that the input file exists. */
    method RunEngine(tempIn: string, outFile: string, fmts: seq<string>,
                     lang: Option<LangValue>, config: Option<string>, parsed: Option<seq<string>>,
                     windows: bool, engine: string -> EngineRun)
      returns (r: Result<Option<seq<string>>, PyError>)
      modifies this
      ensures var e := EngineStage(old(Current()), tempIn, outFile, fmts, lang, config, parsed, windows, engine);
        && r == e.result
        && tempFiles == old(tempFiles) + e.tracked
        && warnings == old(warnings) + e.warned
      ensures Current() == old(Current())
    {
      ghost var spec := EngineStage(old(Current()), tempIn, outFile, fmts, lang, config, parsed, windows, engine);
      ghost var w := ConfigWarnings(config, parsed);
      var line := BuildCommand(command, tempIn, outFile, windows, ExtraTokens(config, parsed), lang, fmts);
      tempFiles := tempFiles + [tempIn];
      WarnConfig(config, parsed);
      if line.Err? {
        assert spec == FileRun(Err(line.error), [tempIn], w);
        return Err(line.error);
      }
      ghost var o := RunOutcome(outFile, fmts, engine(line.value));
      assert spec == FileRun(o.result, [tempIn] + o.tracked, w + o.warned);
      r := Finish(outFile, fmts, engine(line.value));
      ConcatAssoc(old(tempFiles), [tempIn], o.tracked);
      ConcatAssoc(old(warnings), w, o.warned);
    }

    /** Lines 438-446: a `config` that cannot be tokenised is dropped with a warning. */
    method WarnConfig(config: Option<string>, parsed: Option<seq<string>>)
      modifies this
      ensures warnings == old(warnings) + ConfigWarnings(config, parsed)
      ensures Current() == old(Current()) && tempFiles == old(tempFiles)
    {
      if config.Some? && config.value != "" {
        if parsed.None? {
          warnings := warnings + [ConfigUnparsed];
        }
      }
    }

    /** Lines 485-512: collect and track the outputs, or warn with the engine's errors. */
    method Finish(outFile: string, fmts: seq<string>, run: EngineRun) returns (r: Result<Option<seq<string>>, PyError>)
      modifies this
      ensures var o := RunOutcome(outFile, fmts, run);
        && r == o.result
        && tempFiles == old(tempFiles) + o.tracked
        && warnings == old(warnings) + o.warned
      ensures Current() == old(Current())
    {
      r := Ok(None);
      if run.status == Some(0) {
        var outs := CollectOutputs(run.status, outFile, fmts, run.existing);
        if outs.Some? {
          tempFiles := tempFiles + outs.value;
          r := Ok(outs);
        }
      } else {
        var errors := ParseErrors(run.errors);
        if errors.Some? && errors.value != "" {
          warnings := warnings + [EngineFailed(errors.value)];
        }
      }
    }

    /** `image_to_string`: the same inputs as `ImageToFile`, and what each readable file holds. */
    method ImageToString(image: ImageSource, outBase: Option<string>, tempIn: string, tempOut: string,
                         req: FormatRequest, lang: Option<LangValue>, config: Option<string>,
                         parsed: Option<seq<string>>, windows: bool, inputReady: bool,
                         engine: string -> EngineRun, contents: map<string, string>)
      returns (r: Result<Option<string>, PyError>)
      modifies this
      ensures var s := StringRunSpec(old(Current()), image, outBase, tempIn, tempOut, req, lang, config, parsed,
                                     windows, inputReady, engine, contents);
        && r == s.result
        && tempFiles == old(tempFiles) + s.tracked
        && warnings == old(warnings) + s.warned
      ensures Current() == old(Current())
    {
      var pdf := PdfRequested(req);
      if pdf.Err? {
        return Err(pdf.error);
      }
      if pdf.value {
        warnings := warnings + [PdfUnsupported];
        return Ok(None);
      }
      ghost var f := FileRunSpec(old(Current()), image, outBase, tempIn, tempOut, req, lang, config, parsed,
                                 windows, inputReady, engine);
      r := ConvertToString(image, outBase, tempIn, tempOut, req, lang, config, parsed, windows, inputReady, engine, contents);
      ConcatAssoc(old(warnings), f.warned, TextWarnings(f.result, contents));
    }

    /** Lines 530-546 of `image_to_string`: run `image_to_file`, then read what it produced. */
    method ConvertToString(image: ImageSource, outBase: Option<string>, tempIn: string, tempOut: string,
                           req: FormatRequest, lang: Option<LangValue>, config: Option<string>,
                           parsed: Option<seq<string>>, windows: bool, inputReady: bool,
                           engine: string -> EngineRun, contents: map<string, string>)
      returns (r: Result<Option<string>, PyError>)
      modifies this
      ensures var f := FileRunSpec(old(Current()), image, outBase, tempIn, tempOut, req, lang, config, parsed,
                                   windows, inputReady, engine);
        && r == TextResult(f.result, old(contentSep), contents)
        && tempFiles == old(tempFiles) + f.tracked
        && warnings == old(warnings) + f.warned + TextWarnings(f.result, contents)
      ensures Current() == old(Current())
    {
      var outFiles := ImageToFile(image, outBase, tempIn, tempOut, req, lang, config, parsed, windows, inputReady, engine);
      r := TextOf(outFiles, contents);
    }

    /** Lines 532-546 of `image_to_string`: read the output files and join their contents. */
    method TextOf(outFiles: Result<Option<seq<string>>, PyError>, contents: map<string, string>)
      returns (r: Result<Option<string>, PyError>)
      modifies this
      ensures r == TextResult(outFiles, contentSep, contents)
      ensures warnings == old(warnings) + TextWarnings(outFiles, contents)
      ensures Current() == old(Current()) && tempFiles == old(tempFiles)
    {
      if outFiles.Err? {
        return Err(outFiles.error);
      }
      r := Ok(None);
      if outFiles.value.Some? && outFiles.value.value != [] {
        var text := ReadAll(outFiles.value.value, contents);
        r := Ok(Some(text));
      }
    }

    /**
     * Lines 535-546 of `image_to_string`: each file's stripped content (nothing when
     * it is empty or unreadable) and the separator after every file but the last.
     */
    method ReadAll(files: seq<string>, contents: map<string, string>) returns (text: string)
      requires files != []
      modifies this`warnings
      ensures text == Join(contentSep, Texts(files, contents))
      ensures warnings == old(warnings) + ReadWarnings(files, contents, |files|)
    {
      var fileCount := |files|;
      var separator := contentSep;
      ghost var texts := Texts(files, contents);
      text := "";
      for index := 0 to fileCount
        invariant text == Assembled(separator, texts, index)
        invariant warnings == old(warnings) + ReadWarnings(files, contents, index)
      {
        ghost var step := if files[index] in contents then [] else [ReadFailed(files[index])];
        text := ReadStep(files, contents, index, separator, text);
        assert ReadWarnings(files, contents, index + 1) == ReadWarnings(files, contents, index) + step;
        ConcatAssoc(old(warnings), ReadWarnings(files, contents, index), step);
      }
      AssembledAll(separator, texts);
      assert files[..fileCount] == files;
    }

    /** One pass of that loop: the file's content if it has any, then the separator unless it is the last file. */
    method ReadStep(files: seq<string>, contents: map<string, string>, index: nat, separator: string, text: string)
      returns (next: string)
      requires index < |files|
      modifies this`warnings
      ensures next == text + ReadText(contents, files[index]) + (if index + 1 < |files| then separator else "")
      ensures warnings == old(warnings) + (if files[index] in contents then [] else [ReadFailed(files[index])])
    {
      var fileCount := |files|;
      var content := ReadFile(files[index], contents);
      next := text;
      if content != "" {
        next := next + content;
      } else {
        assert next + content == next;
      }
      if fileCount > 1 && index < fileCount - 1 {
        next := next + separator;
      }
    }

    /** `_read_file`: the stripped content of a readable file; an unreadable one warns and gives "". */
    method ReadFile(path: string, contents: map<string, string>) returns (content: string)
      modifies this`warnings
      ensures content == ReadText(contents, path)
      ensures warnings == old(warnings) + (if path in contents then [] else [ReadFailed(path)])
    {
      if path in contents {
        content := Strip(contents[path]);
      } else {
        content := "";
        warnings := warnings + [ReadFailed(path)];
      }
    }

    /**
     * `clear_temp(remove_all)`: with `remove_all` the `TESS_*` files found in the
     * temporary directory (`globbed`) are removed; without it the tracked list is
     * copied and emptied first, so a second call removes nothing. Each listed path
     * is removed when it is still a file (`files` before the call), so a path listed
     * twice is removed once. Returns the removed paths and the files left.
     */
    method ClearTemp(removeAll: bool, globbed: seq<string>, files: set<string>)
      returns (removed: seq<string>, left: set<string>)
      modifies this
      ensures removeAll ==> Cleanup(removed, left) == Sweep(globbed, files) && tempFiles == old(tempFiles)
      ensures !removeAll ==> Cleanup(removed, left) == Sweep(old(tempFiles), files) && tempFiles == []
      ensures Current() == old(Current()) && warnings == old(warnings)
    {
      var list: seq<string>;
      if removeAll {
        list := globbed;
      } else {
        list := tempFiles;
        tempFiles := [];
      }
      removed, left := [], files;
      for i := 0 to |list|
        invariant Cleanup(removed, left) == Sweep(list[..i], files)
        invariant Current() == old(Current()) && warnings == old(warnings)
        invariant tempFiles == if removeAll then old(tempFiles) else []
      {
        assert list[..i + 1][..i] == list[..i];
        if list[i] in left {
          removed, left := removed + [list[i]], left - {list[i]};
        }
      }
      assert list[..|list|] == list;
    }
  }
}
