/**
 * What `image_to_file` does between receiving a request and reading the engine's
 * answer: normalising `output_format`, escaping paths, assembling the engine's
 * command line, picking the output files that exist, and `_parse_errors`.
 */
module Command {
  import opened Wrappers
  import opened Text
  import Lang

  // ---------------------------------------------------------------------------
  // Output formats
  // ---------------------------------------------------------------------------

  /** The `output_format` argument, by its Python type. */
  datatype FormatRequest =
    | FormatText(s: string)           // a str such as "txt" or "txt, TSV"
    | FormatList(items: seq<string>)  // a list or tuple of str
    | FormatOther(truthy: bool, hasPdf: Option<bool>)  // None or another type: its truth value, and
                                                       // what `"pdf" in x` gives (None: `in` raises)

  /** `output_format` as `image_to_file` normalises it into a tuple of tags. */
  function NormalizeFormats(req: FormatRequest): seq<string> {
    match req
    case FormatText(s) =>
      var t := Replace(Lower(s), " ", "");
      if ',' in t then Split(t, ',') else [t]
    case FormatList(items) => seq(|items|, i requires 0 <= i < |items| => Lower(Strip(items[i])))
    case FormatOther(_, _) => ["txt"]
  }

  /**
   * A str request is lower-cased, loses every space and is cut at each comma into
   * tags kept in order: joining them back with commas restores the cleaned text, and
   * no tag holds a comma, a space or an upper-case letter.
   */
  lemma FormatTextMeaning(s: string)
    ensures var fmts := NormalizeFormats(FormatText(s));
      && Join(",", fmts) == Replace(Lower(s), " ", "")
      && forall i :: 0 <= i < |fmts| ==> ',' !in fmts[i] && ' ' !in fmts[i]
                                          && forall j :: 0 <= j < |fmts[i]| ==> !IsUpper(fmts[i][j])
  {
    var l := Lower(s);
    var t := Replace(l, " ", "");
    ReplaceCharRemoves(l, ' ', "");
    ReplaceKeepsLower(l, " ", "");
    var fmts := NormalizeFormats(FormatText(s));
    if ',' in t {
      JoinSplit(t, ',');
      forall i | 0 <= i < |fmts|
        ensures ' ' !in fmts[i] && forall j :: 0 <= j < |fmts[i]| ==> !IsUpper(fmts[i][j])
      {
        SplitPiecesFrom(t, ',', i);
      }
    } else {
      assert fmts == [t];
    }
  }

  /**
   * A list or tuple request keeps its length and order; each tag is the element
   * stripped and lower-cased, so it neither starts nor ends with whitespace.
   */
  lemma FormatListMeaning(items: seq<string>)
    ensures var fmts := NormalizeFormats(FormatList(items));
      && |fmts| == |items|
      && forall i :: 0 <= i < |fmts| ==> fmts[i] == Lower(Strip(items[i]))
                                          && (fmts[i] == [] || (!IsSpace(fmts[i][0]) && !IsSpace(fmts[i][|fmts[i]| - 1])))
  {
    var fmts := NormalizeFormats(FormatList(items));
    forall i | 0 <= i < |fmts|
      ensures fmts[i] == [] || (!IsSpace(fmts[i][0]) && !IsSpace(fmts[i][|fmts[i]| - 1]))
    {
      assert fmts[i] == Lower(Strip(items[i]));
      LowerStripEnds(items[i]);
    }
  }

  /** A stripped, lower-cased tag neither starts nor ends with whitespace. */
  lemma LowerStripEnds(x: string)
    ensures var f := Lower(Strip(x)); f == [] || (!IsSpace(f[0]) && !IsSpace(f[|f| - 1]))
  {
    var st := Strip(x);
    if st != [] {
      LowerKeepsSpaces(st[0]);
      LowerKeepsSpaces(st[|st| - 1]);
    }
  }

  /** Lower-casing maps a character to whitespace only if it was whitespace. */
  lemma LowerKeepsSpaces(c: char)
    ensures IsSpace(LowerChar(c)) == IsSpace(c)
  {
  }

  /** Replacing with text free of upper-case letters keeps a lower-case text lower-case. */
  lemma {:induction false} ReplaceKeepsLower(s: string, pat: string, rep: string)
    requires pat != []
    requires forall j :: 0 <= j < |s| ==> !IsUpper(s[j])
    requires forall j :: 0 <= j < |rep| ==> !IsUpper(rep[j])
    ensures forall j :: 0 <= j < |Replace(s, pat, rep)| ==> !IsUpper(Replace(s, pat, rep)[j])
    decreases |s|
  {
    if StartsWith(s, pat) {
      ReplaceKeepsLower(s[|pat|..], pat, rep);
    } else if s != [] {
      ReplaceKeepsLower(s[1..], pat, rep);
    }
  }

  /** Every piece of a split is made of characters of the split text. */
  lemma {:induction false} SplitPiecesFrom(t: string, sep: char, i: nat)
    requires i < |Split(t, sep)|
    ensures forall j :: 0 <= j < |Split(t, sep)[i]| ==> Split(t, sep)[i][j] in t
  {
    if t != [] {
      var rest := Split(t[1..], sep);
      if t[0] == sep {
        if i > 0 { SplitPiecesFrom(t[1..], sep, i - 1); }
      } else {
        if i == 0 {
          SplitPiecesFrom(t[1..], sep, 0);
          forall j | 0 <= j < |Split(t, sep)[0]| ensures Split(t, sep)[0][j] in t {
            if j > 0 { assert Split(t, sep)[0][j] == rest[0][j - 1]; assert rest[0][j - 1] in t[1..]; }
          }
        } else {
          SplitPiecesFrom(t[1..], sep, i);
          assert Split(t, sep)[i] == rest[i];
        }
      }
    }
  }

  /** The engine's arguments for the requested tags, in the fixed order txt, box, pdf, hocr, tsv. */
  function FormatTokens(fmts: seq<string>): seq<string> {
    FormatPiece(fmts, "txt", ["txt"])
    + FormatPiece(fmts, "box", ["batch.nochop", "makebox"])
    + FormatPiece(fmts, "pdf", ["pdf"])
    + FormatPiece(fmts, "hocr", ["hocr"])
    + FormatPiece(fmts, "tsv", ["tsv"])
  }

  /** The arguments one tag contributes: `args` when the tag was asked for, nothing otherwise. */
  function FormatPiece(fmts: seq<string>, tag: string, args: seq<string>): seq<string> {
    if tag in fmts then args else []
  }

  const KnownFormats: set<string> := {"txt", "box", "pdf", "hocr", "tsv"}

  predicate Distinct(s: seq<string>) {
    forall i, j :: 0 <= i < j < |s| ==> s[i] != s[j]
  }

  /**
   * The format arguments depend only on which known tags were asked for: request
   * order, repeated tags and unknown tags change nothing, and no argument appears twice.
   */
  lemma FormatTokensBySet(a: seq<string>, b: seq<string>)
    requires forall f :: f in KnownFormats ==> (f in a <==> f in b)
    ensures FormatTokens(a) == FormatTokens(b)
    ensures "txt" in FormatTokens(a) <==> "txt" in a
    ensures "makebox" in FormatTokens(a) <==> "box" in a
    ensures "pdf" in FormatTokens(a) <==> "pdf" in a
    ensures "hocr" in FormatTokens(a) <==> "hocr" in a
    ensures "tsv" in FormatTokens(a) <==> "tsv" in a
  {
    assert "txt" in KnownFormats && "box" in KnownFormats && "pdf" in KnownFormats;
    assert "hocr" in KnownFormats && "tsv" in KnownFormats;
  }

  /** No argument is ever asked for twice, whatever tags were requested. */
  lemma FormatTokensDistinct(fmts: seq<string>)
    ensures Distinct(FormatTokens(fmts))
  {
    var p1 := FormatPiece(fmts, "txt", ["txt"]);
    var p2 := FormatPiece(fmts, "box", ["batch.nochop", "makebox"]);
    var p3 := FormatPiece(fmts, "pdf", ["pdf"]);
    var p4 := FormatPiece(fmts, "hocr", ["hocr"]);
    var p5 := FormatPiece(fmts, "tsv", ["tsv"]);
    DistinctAppend(p1, p2);
    DistinctAppend(p1 + p2, p3);
    DistinctAppend(p1 + p2 + p3, p4);
    DistinctAppend(p1 + p2 + p3 + p4, p5);
  }

  /** Two duplicate-free lists with nothing in common stay duplicate-free when concatenated. */
  lemma DistinctAppend(x: seq<string>, y: seq<string>)
    requires Distinct(x) && Distinct(y)
    requires forall k :: 0 <= k < |y| ==> y[k] !in x
    ensures Distinct(x + y)
  {
    forall i, j | 0 <= i < j < |x + y|
      ensures (x + y)[i] != (x + y)[j]
    {
      if j >= |x| && i < |x| {
        assert (x + y)[j] == y[j - |x|];
        assert (x + y)[i] == x[i];
      }
    }
  }

  /** A request of any other type falls back to plain text: the engine is asked for `txt` alone. */
  lemma FormatOtherDefault(truthy: bool, hasPdf: Option<bool>)
    ensures NormalizeFormats(FormatOther(truthy, hasPdf)) == ["txt"]
    ensures FormatTokens(NormalizeFormats(FormatOther(truthy, hasPdf))) == ["txt"]
  {
    assert "box" !in ["txt"] && "pdf" !in ["txt"] && "hocr" !in ["txt"] && "tsv" !in ["txt"];
  }

  // ---------------------------------------------------------------------------
  // Escaping and the command line
  // ---------------------------------------------------------------------------

  /** `escape_path`: double quotes around the path on Windows, a backslash before each space elsewhere. */
  function EscapePath(s: string, windows: bool): string {
    if windows then "\"" + s + "\"" else Replace(s, " ", "\\ ")
  }

  /** Backslash-escaping never yields a string that starts with a bare space. */
  lemma EscapeHead(s: string)
    ensures var e := Replace(s, " ", "\\ "); e == [] || e[0] != ' '
  {
  }

  /** Reading each "\ " back as a space recovers the path: escaping loses nothing. */
  lemma {:induction false} UnescapeEscape(s: string)
    ensures Replace(EscapePath(s, false), "\\ ", " ") == s
    decreases |s|
  {
    if s != [] {
      UnescapeEscape(s[1..]);
      var e := Replace(s[1..], " ", "\\ ");
      EscapeHead(s[1..]);
      if s[0] == ' ' {
        assert StartsWith(s, " ");
        assert EscapePath(s, false) == "\\ " + e;
        assert ("\\ " + e)[2..] == e;
      } else {
        assert !StartsWith(s, " ");
        assert EscapePath(s, false) == [s[0]] + e;
        if |e| >= 1 {
          assert ([s[0]] + e)[1] == e[0];
        }
        assert !StartsWith([s[0]] + e, "\\ ");
        assert ([s[0]] + e)[1..] == e;
        assert [s[0]] + s[1..] == s;
      }
    }
  }

  /** `command = [tess_cmd, in_file, out_file]` after escaping. */
  function BaseTokens(cmd: string, inFile: string, outFile: string, windows: bool): seq<string> {
    var both := ' ' in inFile || ' ' in outFile;
    [ if ' ' in cmd then EscapePath(cmd, windows) else cmd,
      if both then EscapePath(inFile, windows) else inFile,
      if both then EscapePath(outFile, windows) else outFile ]
  }

  /** Reading an argument back on a platform: strip the quotes on Windows, turn "\ " into " " elsewhere. */
  function Unescape(s: string, windows: bool): string {
    if windows then (if |s| >= 2 then s[1..|s| - 1] else s) else Replace(s, "\\ ", " ")
  }

  /**
   * The command is escaped exactly when it holds a space; the input and output paths
   * both are when either holds one; on Windows an escaped argument is the quoted path.
   * Whatever was done, each argument reads back as the path it came from.
   */
  lemma BaseTokensMeaning(cmd: string, inFile: string, outFile: string, windows: bool)
    ensures var b := BaseTokens(cmd, inFile, outFile, windows);
      && |b| == 3
      && (b[0] != cmd ==> ' ' in cmd)
      && (b[1] != inFile || b[2] != outFile ==> ' ' in inFile || ' ' in outFile)
      && (' ' in cmd ==> b[0] == EscapePath(cmd, windows))
      && (' ' in inFile || ' ' in outFile ==>
            b[1] == EscapePath(inFile, windows) && b[2] == EscapePath(outFile, windows))
      && (windows ==> (b[0] == cmd || b[0] == "\"" + cmd + "\"")
                      && (b[1] == inFile || b[1] == "\"" + inFile + "\"")
                      && (b[2] == outFile || b[2] == "\"" + outFile + "\""))
      && (' ' in cmd ==> Unescape(b[0], windows) == cmd)
      && (' ' in inFile || ' ' in outFile ==>
            Unescape(b[1], windows) == inFile && Unescape(b[2], windows) == outFile)
      && (!windows ==> Unescape(b[0], windows) == cmd && Unescape(b[1], windows) == inFile
                       && Unescape(b[2], windows) == outFile)
  {
    var b := BaseTokens(cmd, inFile, outFile, windows);
    if !windows {
      UnescapeEscape(cmd);
      UnescapeEscape(inFile);
      UnescapeEscape(outFile);
      UnescapeNoSpace(cmd);
      UnescapeNoSpace(inFile);
      UnescapeNoSpace(outFile);
    } else {
      QuotesOff(cmd);
      QuotesOff(inFile);
      QuotesOff(outFile);
    }
  }

  lemma QuotesOff(s: string)
    ensures ("\"" + s + "\"")[1..|s| + 1] == s
  {
  }

  /** A string without spaces holds no "\ " and reads back as itself. */
  lemma UnescapeNoSpace(s: string)
    ensures ' ' !in s ==> Replace(s, "\\ ", " ") == s
  {
    if ' ' !in s {
      NoSpaceNoPair(s);
      ReplaceAbsent(s, "\\ ", " ");
    }
  }

  lemma {:induction false} NoSpaceNoPair(s: string)
    requires ' ' !in s
    ensures !HasSubstring(s, "\\ ")
    decreases |s|
  {
    if s != [] {
      if |s| >= 2 { assert s[1] in s; }
      NoSpaceNoPair(s[1..]);
    } else {
      assert !StartsWith(s, "\\ ");
    }
  }

  /** A Python exception that escapes `image_to_file`. */
  datatype PyError =
    | ValueError(cause: Lang.LangError)  // from TessyLang.join
    | TypeError(item: nat)                // " ".join met a non-str at this index of `command`
    | NotContainer                        // `in` applied to a value that supports no membership test

  /** Python truthiness of a `lang` value. */
  predicate Truthy(v: Lang.LangValue) {
    match v
    case Member(_) => true
    case Str(s) => s != ""
    case Sequence(items, _) => items != []
    case Other(_, truthy) => truthy
  }

  /** What the `lang` argument turns into: nothing, a str, or a non-str that breaks " ".join, or a raise. */
  datatype LangArg = NoLang | LangText(s: string) | LangNotText

  /** Lines 451-455 of `image_to_file`: a member or list/tuple is joined, a str passes unchecked. */
  function LangArgument(lang: Option<Lang.LangValue>): Result<LangArg, PyError> {
    if lang.None? || !Truthy(lang.value) then Ok(NoLang)
    else
      match lang.value
      case Member(c) => Ok(LangText(c))
      case Sequence(items, _) =>
        (match Lang.JoinSpec(items)
         case Err(e) => Err(ValueError(e))
         case Ok(Joined(s)) => Ok(LangText(s))
         case Ok(EmptyList) => Ok(LangNotText))
      case Str(s) => Ok(LangText(s))
      case Other(_, _) => Ok(LangNotText)
  }

  /** The whole argument vector when every element is a str. */
  function CommandTokens(base: seq<string>, extra: seq<string>, lang: string, fmts: seq<string>): seq<string> {
    base + extra + ["-l", lang] + FormatTokens(fmts)
  }

  /** `" ".join(command)` for the command `image_to_file` assembles, or the exception it raises. */
  function CommandSpec(cmd: string, inFile: string, outFile: string, windows: bool,
                       extra: seq<string>, lang: Option<Lang.LangValue>, fmts: seq<string>): Result<string, PyError>
  {
    var base := BaseTokens(cmd, inFile, outFile, windows);
    match LangArgument(lang)
    case Err(e) => Err(e)
    case Ok(NoLang) => Ok(Join(" ", base + extra + FormatTokens(fmts)))
    case Ok(LangText(l)) => Ok(Join(" ", CommandTokens(base, extra, l, fmts)))
    case Ok(LangNotText) => Err(TypeError(|base| + |extra| + 1))
  }

  /** Lines 451-455: the language argument, joining a list or tuple of languages. */
  method ResolveLang(lang: Option<Lang.LangValue>) returns (r: Result<LangArg, PyError>)
    ensures r == LangArgument(lang)
  {
    r := Ok(NoLang);
    if lang.Some? && Truthy(lang.value) {
      var v := lang.value;
      if v.Member? {
        r := Ok(LangText(v.code));
      } else if v.Sequence? {
        var joined := Lang.JoinLangs(v.items);
        if joined.Err? {
          r := Err(ValueError(joined.error));
        } else if joined.value.Joined? {
          r := Ok(LangText(joined.value.text));
        } else {
          r := Ok(LangNotText);
        }
      } else if v.Str? {
        r := Ok(LangText(v.s));
      } else {
        r := Ok(LangNotText);
      }
    }
  }

  /** Lines 459-477: one `+=` per requested format, in the fixed order. */
  method AppendFormats(command: seq<string>, fmts: seq<string>) returns (c: seq<string>)
    ensures c == command + FormatTokens(fmts)
  {
    var c1 := AppendIfRequested(command, fmts, "txt", ["txt"]);
    var c2 := AppendIfRequested(c1, fmts, "box", ["batch.nochop", "makebox"]);
    var c3 := AppendIfRequested(c2, fmts, "pdf", ["pdf"]);
    var c4 := AppendIfRequested(c3, fmts, "hocr", ["hocr"]);
    c := AppendIfRequested(c4, fmts, "tsv", ["tsv"]);
  }

  /** One of those `if tag in fmts: command += args` steps. */
  method AppendIfRequested(command: seq<string>, fmts: seq<string>, tag: string, args: seq<string>)
    returns (c: seq<string>)
    ensures c == command + FormatPiece(fmts, tag, args)
    ensures tag in fmts ==> c == command + args
    ensures tag !in fmts ==> c == command
  {
    c := command;
    if tag in fmts {
      c := c + args;
    }
  }

  /**
   * Lines 416-480 of `image_to_file`: the argument list grown piece by piece with `+=`
   * and joined with spaces; a non-str language value is only noticed by the join.
   */
  method BuildCommand(cmd: string, inFile: string, outFile: string, windows: bool,
                      extra: seq<string>, lang: Option<Lang.LangValue>, fmts: seq<string>)
    returns (r: Result<string, PyError>)
    ensures r == CommandSpec(cmd, inFile, outFile, windows, extra, lang, fmts)
  {
    var tessCmd, inArg, outArg := cmd, inFile, outFile;
    if ' ' in inArg || ' ' in outArg {
      inArg := EscapePath(inArg, windows);
      outArg := EscapePath(outArg, windows);
    }
    if ' ' in tessCmd {
      tessCmd := EscapePath(tessCmd, windows);
    }
    var command := [tessCmd, inArg, outArg];
    command := command + extra;
    var arg := ResolveLang(lang);
    if arg.Err? {
      return Err(arg.error);
    }
    var nonText: Option<nat> := None;
    match arg.value {
      case NoLang =>
      case LangText(l) =>
        command := command + ["-l", l];
      case LangNotText =>
        nonText := Some(|command| + 1);
        command := command + ["-l", ""];
    }
    command := AppendFormats(command, fmts);
    if nonText.Some? {
      return Err(TypeError(nonText.value));
    }
    r := Ok(Join(" ", command));
  }

  /**
   * The argument vector starts with the three base arguments, then the extra
   * arguments, then `-l` and the language when one is given, then the format arguments.
   */
  lemma CommandTokensLayout(base: seq<string>, extra: seq<string>, lang: string, fmts: seq<string>)
    requires |base| == 3
    ensures var t := CommandTokens(base, extra, lang, fmts);
      && t[..3] == base
      && t[3..3 + |extra|] == extra
      && t[3 + |extra|] == "-l" && t[4 + |extra|] == lang
      && t[5 + |extra|..] == FormatTokens(fmts)
  {
  }

  /** The documented failures: a rejected language raises ValueError, `[]` for a language raises TypeError. */
  lemma CommandFailures(cmd: string, inFile: string, outFile: string, windows: bool,
                        extra: seq<string>, lang: Option<Lang.LangValue>, fmts: seq<string>)
    ensures var r := CommandSpec(cmd, inFile, outFile, windows, extra, lang, fmts);
      && (lang.Some? && lang.value.Sequence? && lang.value.items != [] && Lang.JoinSpec(lang.value.items).Err? ==>
            r == Err(ValueError(Lang.JoinSpec(lang.value.items).error)))
      && (lang.Some? && lang.value.Sequence? && lang.value.items != [] && Lang.JoinSpec(lang.value.items) == Ok(Lang.EmptyList) ==>
            r == Err(TypeError(4 + |extra|)))
      && (lang.Some? && lang.value.Str? ==> r.Ok?)
      && (lang.None? ==> r.Ok?)
  {
  }

  /**
   * A language that resolves to a str is passed after `-l` as it is: a non-empty str
   * unchecked, a member as its code, a list or tuple as the text `join` makes of it.
   */
  lemma TextLangPassed(cmd: string, inFile: string, outFile: string, windows: bool,
                       extra: seq<string>, lang: Lang.LangValue, fmts: seq<string>)
    ensures var r := CommandSpec(cmd, inFile, outFile, windows, extra, Some(lang), fmts);
      var base := BaseTokens(cmd, inFile, outFile, windows);
      && (lang.Str? && lang.s != "" ==> r == Ok(Join(" ", CommandTokens(base, extra, lang.s, fmts))))
      && (lang.Member? ==> r == Ok(Join(" ", CommandTokens(base, extra, lang.code, fmts))))
      && (lang.Sequence? && lang.items != [] && Lang.JoinSpec(lang.items).Ok? && Lang.JoinSpec(lang.items).value.Joined? ==>
            r == Ok(Join(" ", CommandTokens(base, extra, Lang.JoinSpec(lang.items).value.text, fmts))))
  {
    if lang.Str? && lang.s != "" {
      assert LangArgument(Some(lang)) == Ok(LangText(lang.s));
    } else if lang.Member? {
      assert LangArgument(Some(lang)) == Ok(LangText(lang.code));
    } else if lang.Sequence? && lang.items != [] && Lang.JoinSpec(lang.items).Ok? && Lang.JoinSpec(lang.items).value.Joined? {
      assert LangArgument(Some(lang)) == Ok(LangText(Lang.JoinSpec(lang.items).value.text));
    }
  }

  /** A falsy `lang` (None, "", an empty list, False, 0, an empty set) adds no `-l` at all. */
  lemma FalsyLangOmitted(cmd: string, inFile: string, outFile: string, windows: bool,
                         extra: seq<string>, lang: Option<Lang.LangValue>, fmts: seq<string>)
    requires lang.None? || !Truthy(lang.value)
    ensures CommandSpec(cmd, inFile, outFile, windows, extra, lang, fmts)
              == Ok(Join(" ", BaseTokens(cmd, inFile, outFile, windows) + extra + FormatTokens(fmts)))
  {
    assert LangArgument(lang) == Ok(NoLang);
  }

  /** A truthy `lang` of another type reaches `" ".join`, which raises TypeError just after `-l`. */
  lemma OtherLangRaises(cmd: string, inFile: string, outFile: string, windows: bool,
                        extra: seq<string>, typeName: string, fmts: seq<string>)
    ensures CommandSpec(cmd, inFile, outFile, windows, extra, Some(Lang.Other(typeName, true)), fmts)
              == Err(TypeError(4 + |extra|))
  {
    assert LangArgument(Some(Lang.Other(typeName, true))) == Ok(LangNotText);
    assert |BaseTokens(cmd, inFile, outFile, windows)| == 3;
  }

  // ---------------------------------------------------------------------------
  // Output collection
  // ---------------------------------------------------------------------------

  /** `"{0}.{1}".format(out_file_clean, fmt)` for every requested tag, duplicates kept. */
  function OutputPaths(base: string, fmts: seq<string>): (paths: seq<string>)
    ensures |paths| == |fmts|
    ensures forall i :: 0 <= i < |fmts| ==> paths[i] == base + "." + fmts[i]
  {
    if fmts == [] then [] else [base + "." + fmts[0]] + OutputPaths(base, fmts[1..])
  }

  /** The paths that are files, in their order. */
  function Existing(paths: seq<string>, files: set<string>): seq<string> {
    if paths == [] then []
    else (if paths[0] in files then [paths[0]] else []) + Existing(paths[1..], files)
  }

  /** How many times `p` occurs in `s`. */
  function Occurrences(s: seq<string>, p: string): nat {
    if s == [] then 0 else (if s[0] == p then 1 else 0) + Occurrences(s[1..], p)
  }

  /**
   * Filtering keeps exactly the existing paths with their multiplicity: a path that is
   * a file occurs as often as it was requested, any other path not at all.
   */
  lemma {:induction false} ExistingCounts(paths: seq<string>, files: set<string>, p: string)
    ensures Occurrences(Existing(paths, files), p) == if p in files then Occurrences(paths, p) else 0
    ensures p in Existing(paths, files) <==> p in paths && p in files
  {
    if paths != [] {
      ExistingCounts(paths[1..], files, p);
      var head := if paths[0] in files then [paths[0]] else [];
      OccurrencesAppend(head, Existing(paths[1..], files), p);
    }
  }

  lemma {:induction false} OccurrencesAppend(a: seq<string>, b: seq<string>, p: string)
    ensures Occurrences(a + b, p) == Occurrences(a, p) + Occurrences(b, p)
  {
    if a != [] {
      OccurrencesAppend(a[1..], b, p);
      assert (a + b)[1..] == a[1..] + b;
    } else {
      assert a + b == b;
    }
  }

  /**
   * Lines 486-501: after exit status 0 the request-ordered paths `"{base}.{fmt}"` that
   * exist, as a tuple when there is at least one; otherwise (also for any other status,
   * or no status when the engine could not start) False, modelled as None.
   */
  function CollectOutputs(status: Option<int>, base: string, fmts: seq<string>, files: set<string>): Option<seq<string>> {
    if status == Some(0) then
      var found := Existing(OutputPaths(base, fmts), files);
      if found != [] then Some(found) else None
    else None
  }

  /** Filtering a list one element longer extends the filtered list by that element if it exists. */
  lemma {:induction false} ExistingSnoc(paths: seq<string>, x: string, files: set<string>)
    ensures Existing(paths + [x], files) == Existing(paths, files) + (if x in files then [x] else [])
  {
    if paths == [] {
      assert [] + [x] == [x];
    } else {
      ExistingSnoc(paths[1..], x, files);
      assert (paths + [x])[1..] == paths[1..] + [x];
    }
  }

  /**
   * Filtering keeps order: the existing paths of a concatenation are those of its first
   * part followed by those of its second, and a single path is kept exactly when it exists.
   */
  lemma {:induction false} ExistingAppend(a: seq<string>, b: seq<string>, files: set<string>)
    ensures Existing(a + b, files) == Existing(a, files) + Existing(b, files)
  {
    if a != [] {
      var head := if a[0] in files then [a[0]] else [];
      assert (a + b)[0] == a[0];
      assert (a + b)[1..] == a[1..] + b;
      ExistingAppend(a[1..], b, files);
      assert Existing(a + b, files) == head + (Existing(a[1..], files) + Existing(b, files));
    } else {
      assert a + b == b;
    }
  }

  /** A single path is kept exactly when it exists. */
  lemma ExistingSingle(x: string, files: set<string>)
    ensures Existing([x], files) == if x in files then [x] else []
  {
    assert [x][1..] == [];
  }

  /** Counting requested tags whose output file exists. */
  function ExistingCount(base: string, fmts: seq<string>, files: set<string>): nat {
    if fmts == [] then 0
    else (if base + "." + fmts[0] in files then 1 else 0) + ExistingCount(base, fmts[1..], files)
  }

  /**
   * The collected result holds one path per requested tag whose file exists, each of
   * them `"{base}.{fmt}"` for a requested tag and an existing file; it is absent
   * exactly when the status is not 0 or no such file exists.
   */
  lemma {:induction false} CollectOutputsMeaning(status: Option<int>, base: string, fmts: seq<string>, files: set<string>)
    ensures CollectOutputs(status, base, fmts, files).Some? <==> status == Some(0) && ExistingCount(base, fmts, files) > 0
    ensures CollectOutputs(status, base, fmts, files).Some? ==>
      var ps := CollectOutputs(status, base, fmts, files).value;
      && |ps| == ExistingCount(base, fmts, files)
      && forall p :: p in ps <==> (p in files && exists i :: 0 <= i < |fmts| && p == base + "." + fmts[i])
  {
    ExistingLength(base, fmts, files);
    if status == Some(0) {
      var ps := Existing(OutputPaths(base, fmts), files);
      forall p ensures p in ps <==> (p in files && exists i :: 0 <= i < |fmts| && p == base + "." + fmts[i]) {
        ExistingCounts(OutputPaths(base, fmts), files, p);
        var paths := OutputPaths(base, fmts);
        if p in paths {
          var i :| 0 <= i < |paths| && paths[i] == p;
          assert p == base + "." + fmts[i];
        }
        if p in files && exists i :: 0 <= i < |fmts| && p == base + "." + fmts[i] {
          var i :| 0 <= i < |fmts| && p == base + "." + fmts[i];
          assert paths[i] == p;
        }
      }
    }
  }

  lemma {:induction false} ExistingLength(base: string, fmts: seq<string>, files: set<string>)
    ensures |Existing(OutputPaths(base, fmts), files)| == ExistingCount(base, fmts, files)
  {
    if fmts != [] {
      ExistingLength(base, fmts[1..], files);
      assert OutputPaths(base, fmts)[1..] == OutputPaths(base, fmts[1..]);
    }
  }

  // ---------------------------------------------------------------------------
  // Engine errors
  // ---------------------------------------------------------------------------

  /** The lines that contain `word`, in order. */
  function LinesWith(lines: seq<string>, word: string): (r: seq<string>)
    ensures forall i :: 0 <= i < |r| ==> HasSubstring(r[i], word) && r[i] in lines
    ensures forall i :: 0 <= i < |lines| && HasSubstring(lines[i], word) ==> lines[i] in r
    ensures |r| <= |lines|
  {
    if lines == [] then []
    else (if HasSubstring(lines[0], word) then [lines[0]] else []) + LinesWith(lines[1..], word)
  }

  /**
   * Selecting lines keeps order and multiplicity: the lines kept from a concatenation
   * are those kept from its first part followed by those kept from its second.
   */
  lemma {:induction false} LinesWithAppend(a: seq<string>, b: seq<string>, word: string)
    ensures LinesWith(a + b, word) == LinesWith(a, word) + LinesWith(b, word)
  {
    if a != [] {
      var head := if HasSubstring(a[0], word) then [a[0]] else [];
      assert (a + b)[0] == a[0];
      assert (a + b)[1..] == a[1..] + b;
      assert LinesWith(a + b, word) == head + LinesWith(a[1..] + b, word);
      LinesWithAppend(a[1..], b, word);
      assert LinesWith(a, word) == head + LinesWith(a[1..], word);
    } else {
      assert a + b == b;
    }
  }

  /** A single line is kept exactly when it contains the word. */
  lemma LinesWithSingle(line: string, word: string)
    ensures LinesWith([line], word) == if HasSubstring(line, word) then [line] else []
  {
    assert [line][1..] == [];
  }

  /** `_parse_errors(error_string)`: None is the Python None. */
  function ParseErrors(errorString: Option<string>): Option<string> {
    if errorString.None? || errorString.value == [] then errorString
    else
      var errorLines := LinesWith(SplitLines(errorString.value), "Error");
      if |errorLines| > 0 then Some(Join("\n", errorLines)) else Some(Strip(errorString.value))
  }

  lemma {:induction false} HasSubstringNonEmpty(s: string, sub: string)
    requires sub != [] && HasSubstring(s, sub)
    ensures s != []
  {
  }

  /**
   * A falsy input comes back unchanged; otherwise the answer is made of exactly the
   * lines that mention "Error", one per line in their original order, or, when there
   * is none, the whole text stripped.
   */
  lemma ParseErrorsMeaning(errorString: Option<string>)
    ensures errorString.None? || errorString == Some([]) ==> ParseErrors(errorString) == errorString
    ensures errorString.Some? && errorString.value != [] ==>
      var lines := LinesWith(SplitLines(errorString.value), "Error");
      && ParseErrors(errorString).Some?
      && (lines != [] ==> SplitLines(ParseErrors(errorString).value) == lines
                          && forall i :: 0 <= i < |lines| ==> HasSubstring(lines[i], "Error"))
      && (lines == [] ==> ParseErrors(errorString) == Some(Strip(errorString.value)))
  {
    if errorString.Some? && errorString.value != [] {
      var all := SplitLines(errorString.value);
      var lines := LinesWith(all, "Error");
      if lines != [] {
        forall i, j | 0 <= i < |lines| && 0 <= j < |lines[i]| ensures !IsLineBreak(lines[i][j]) {
          var k :| 0 <= k < |all| && all[k] == lines[i];
        }
        HasSubstringNonEmpty(lines[|lines| - 1], "Error");
        SplitLinesJoin(lines);
      }
    }
  }
}
