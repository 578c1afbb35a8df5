# tessy: a Dafny model of the request and result layer

tessy is a Python wrapper around the Tesseract OCR engine. Its caller passes an
image, an output-format request, languages and extra engine options. The wrapper:

- normalises the request and builds the engine command line;
- runs the engine;
- collects the output files it produced;
- for `image_to_string`, reads them back and joins their contents with a
  configurable separator.

The module keeps global state:

- the engine command;
- the data directory;
- the content separator;
- the list of temporary files it created, which `clear_temp` deletes;
- the warnings it emits.

A small documentation script, `make-doc.py`, turns member names into Markdown
anchors (`str_to_mdlink`). It also renders each member's table-of-contents line
and heading (`build_member_doc`).

This project models that layer and proves what it promises. The modules are:

- `Wrappers`: `Option` and `Result`.
- `Text`: the Python `str` operations the source relies on:
  - `strip` with Python's whitespace set;
  - `lower`;
  - `replace`, which is non-overlapping, left to right;
  - `split` on one character;
  - `join`;
  - `splitlines` with Python's line-break set, so `\r\n` counts as one break;
  - the substring test behind `in`.
- `Lang`: the `TessyLang` code set, `contains` and the validating `join`.
- `Command`: the arguments passed to the engine. It covers:
  - output-format normalisation;
  - path escaping on Windows and elsewhere;
  - command-line assembly;
  - output collection;
  - `_parse_errors`.
- `Tessy`: the module state as a `Session` class. Its methods are:
  - the setters;
  - `configure`;
  - `image_to_file`;
  - `image_to_string`;
  - `clear_temp`.

  Each method's `ensures` ties the new state to a specification function of the
  old state. The properties of those functions are proved as lemmas.
- `MakeDoc`: `str_to_mdlink` and `build_member_doc` as pure functions over a
  `MemberInfo` record.

The outside world enters as parameters:

- The engine is a function from the command line to an `EngineRun`. An
  `EngineRun` holds the exit status, the error output and the set of files that
  exist afterwards.
- `shlex.split(config)` is an input that is either the tokens or a failure.
- For an `output_format` or `lang` of another type, its truth value is an input. For `output_format`, so is the outcome of `"pdf" in x`: true, false, or none when the type has no membership test.
- Each file's readable content is a map.
- The set of existing directories and files is a set.
- The platform is a boolean (`windows`).

Exceptions that escape `image_to_file` and `image_to_string` are modelled as the
`Err` case of their result (`PyError`):

- the `ValueError` of `TessyLang.join`;
- the `TypeError` raised by `" ".join` when the language resolves to `[]`;
- the `TypeError` raised by `"pdf" in x` on a truthy value that supports no membership test.

The code raises them, so the model does too, although the module's own
description presents these functions as returning `False` or `None` on failure.

## Model

| member | source | states |
|---|---|---|
| Lang.CodeShape | tessy/_tessy.py:27-145 | Every `TessyLang` value is 3 to 8 lower-case letters or `_`. So no code is empty, none contains `+` or whitespace, and stripping leaves a code unchanged. |
| Lang.Normalize | tessy/_tessy.py:157-174 | One argument of `join` is accepted exactly when it is a member, or a str whose stripped form is a member's value. The accepted code is a member's value. |
| Lang.ValidateMeaning | tessy/_tessy.py:155-176 | The loop accepts the arguments exactly when every one is accepted. It then keeps their codes one for one, in argument order. Otherwise it fails with the error of the first bad argument, and every argument before that one was accepted. |
| Lang.JoinMeaning | tessy/_tessy.py:147-181 | `join` returns `[]` exactly when nothing is left after unpacking a leading list or tuple. A bad element gives its `ValueError`, never a partial string. Otherwise the result splits on `+` back into the elements' codes, in order, and every piece is a known code. |
| Lang.CollectMeaning | tessy/_tessy.py:155-176 | For any per-argument check, checking arguments in order succeeds exactly when every argument passes, and then yields their codes one for one. Otherwise it fails with the error of some argument that does not pass. |
| Lang.CollectCodes | tessy/_tessy.py:155-176 | The imperative loop that appends each normalised code computes exactly the validated code list or the first error. |
| Lang.JoinLangs | tessy/_tessy.py:147-181 | The imperative `join`, with the unpacking of a first list/tuple argument, equals the `join` specification. |
| Lang.JoinEngFra | tessy/_tessy.py:147-181 | `join("eng", "fra")` is `"eng+fra"`. |
| Lang.JoinUnknown | tessy/_tessy.py:166-171 | `join("xyz")` raises the "not supported" `ValueError` for `"xyz"`. |
| Lang.XyzIsNoCode | tessy/_tessy.py:143-145 | `contains("xyz")` is false. |
| Command.FormatTextMeaning | tessy/_tessy.py:350-358 | A str request becomes tags that join back with `,` into the lower-cased request without spaces. No tag contains a comma, a space or an upper-case letter. |
| Command.FormatListMeaning | tessy/_tessy.py:359-361 | A list or tuple request keeps its length and order. Each tag is the element stripped and lower-cased, so no tag starts or ends with whitespace. |
| Command.FormatOtherDefault | tessy/_tessy.py:362-368 | A request of any other type becomes `("txt",)`, and the engine gets the single format argument `txt`. |
| Command.FormatTokensBySet | tessy/_tessy.py:459-477 | The format arguments depend only on which known tags were requested. Request order, repeated tags and unknown tags change nothing. Each known tag adds its own arguments exactly when it was requested. |
| Command.FormatTokensDistinct | tessy/_tessy.py:459-477 | Whatever tags were requested, no engine argument appears twice. |
| Command.AppendIfRequested | tessy/_tessy.py:459-477 | One `if tag in fmts: command += [...]` step appends its arguments exactly when the tag was requested, and otherwise leaves the list unchanged. |
| Command.UnescapeEscape | tessy/_tessy.py:424-426 | Outside Windows, turning every `\ ` of an escaped path back into a space gives back the path. |
| Command.BaseTokensMeaning | tessy/_tessy.py:424-436 | The command is escaped only if it contains a space. The input and output paths are escaped together, only if either contains a space. On Windows, escaping quotes the path. In every case each escaped argument reads back as the original. |
| Command.ResolveLang | tessy/_tessy.py:451-457 | The imperative resolution of `lang` equals the specification: a falsy value adds nothing, a member or a list/tuple goes through `join`, a str is used as given, and a truthy value of another type is kept as a non-str. |
| Command.FalsyLangOmitted | tessy/_tessy.py:451-457 | A falsy `lang` (None, `""`, an empty list, `False`, `0`, an empty set) adds no `-l` at all, and the command is built without it. |
| Command.OtherLangRaises | tessy/_tessy.py:451-480 | A truthy `lang` of another type is appended after `-l`, and `" ".join` raises TypeError at that position. |
| Command.AppendFormats | tessy/_tessy.py:459-477 | The sequence of `+=` steps appends exactly the format arguments of the request. |
| Command.BuildCommand | tessy/_tessy.py:416-480 | The imperative command builder returns the space-joined argument list, or the exception it raises. |
| Command.CommandTokensLayout | tessy/_tessy.py:436-477 | The argument list is the base triple, then the `config` tokens, then `-l` and the language, then the format arguments. |
| Command.TextLangPassed | tessy/_tessy.py:451-480 | A non-empty str language is passed after `-l` unchecked, a member as its code, and a list or tuple as the text `join` makes of it. In each case the whole command is the base tokens, the extra tokens, `-l` and that text, then the format tokens, joined by spaces. |
| Command.CommandFailures | tessy/_tessy.py:451-480 | A list/tuple language that `join` rejects raises its `ValueError`. One that `join` turns into `[]` makes `" ".join` raise `TypeError` at the position after `-l`. A str language or no language never fails. |
| Command.OutputPaths | tessy/_tessy.py:487-495 | There is one candidate path `"{base}.{fmt}"` per requested tag, duplicates kept. The base is the unescaped output name. |
| Command.ExistingCounts | tessy/_tessy.py:487-497 | Filtering by existence keeps every existing path as often as it was requested and drops every missing one. |
| Command.ExistingAppend | tessy/_tessy.py:487-497 | Filtering keeps order: the existing paths of a concatenation are those of its first part followed by those of its second. |
| Command.ExistingSingle | tessy/_tessy.py:487-497 | A single path is kept exactly when it exists. |
| Command.CollectOutputsMeaning | tessy/_tessy.py:486-501 | The result is a tuple exactly when the status is 0 and some output exists. The tuple holds one entry per requested existing path. Its members are exactly the existing `"{base}.{fmt}"` paths for requested tags. |
| Command.LinesWith | tessy/_tessy.py:994-995 | Keeps exactly the lines that contain the word, and nothing else. |
| Command.LinesWithAppend | tessy/_tessy.py:994-995 | Selection keeps order and multiplicity. The lines kept from `a + b` are those kept from `a`, followed by those kept from `b`. |
| Command.LinesWithSingle | tessy/_tessy.py:994-995 | A single line is kept exactly when it contains the word. |
| Command.ParseErrorsMeaning | tessy/_tessy.py:990-1002 | A falsy error text is returned unchanged. Otherwise the result holds the lines that mention "Error", in order, separated by newlines. It splits back into exactly those lines. When no line matches, the result is the whole text stripped. |
| Tessy.Defaults | tessy/_tessy.py:198-214 | The initial configuration is command `tesseract`, no data directory and separator `"\|\|\|\|"`. |
| Tessy.SetCommandSettles | tessy/_tessy.py:239-251 | `set_command` warns exactly when given an empty command. It stores the command stripped and changes nothing else. Setting the same command twice gives the same configuration as setting it once. |
| Tessy.InvalidKeysMeaning | tessy/_tessy.py:279-300 | `configure` reports exactly the keywords that contain none of `command`, `data_dir` and `content_sep`. The report is empty exactly when every keyword is one of them. |
| Tessy.ApplyOptionsKeepsCommand | tessy/_tessy.py:284-292 | Keywords that do not dispatch to `set_command` never change the command. |
| Tessy.ApplyOptionsKeepsDataDir | tessy/_tessy.py:284-292 | Keywords that do not dispatch to `set_data_dir` never change the data directory or the environment. |
| Tessy.ApplyOptionsKeepsSeparator | tessy/_tessy.py:284-292 | Keywords that do not dispatch to `set_content_sep` never change the separator. |
| Tessy.DataDirWarningSilenced | tessy/_tessy.py:322-328 | Any one of these silences the missing-data-directory warning: `--tessdata-dir` in `config`, `TESSDATA_PREFIX` in the environment, or a successful `set_data_dir`. |
| Tessy.FileRunMeaning | tessy/_tessy.py:316-512 | `image_to_file` tracks files only when it reaches the engine stage, and then it tracks the input file first. On a raised error only the input file is tracked. A tuple result means the engine ran with status 0. The tuple is then non-empty, holds only existing `"{out}.{fmt}"` paths, and is tracked after the input file. The data-directory warning comes first exactly when no data directory is known. |
| Tessy.EngineStageMeaning | tessy/_tessy.py:411-512 | The engine stage always tracks the input file first. On a raised error it tracks nothing else. A tuple result means the command was built and the engine exited with status 0. The tuple is then non-empty and tracked after the input file, and each entry is an existing `"{out}.{fmt}"` path for a requested tag. The stage never issues the missing-data-directory warning. |
| Tessy.PdfRequestedMeaning | tessy/_tessy.py:521-526 | PDF is detected by a substring test on a str and an element test on a list or tuple. On a truthy value of another type, the type's own membership test decides, and only a value without one raises. A falsy value never asks for PDF. The test is case-sensitive: a request `"PDF"` is not rejected, yet it normalises to the tag `pdf`. |
| Tessy.AssembledJoin | tessy/_tessy.py:538-546 | After n of the files, the accumulated text is the first n contents joined by the separator, followed by one more separator unless every file has been read. |
| Tessy.AssembledAll | tessy/_tessy.py:532-546 | Once every file has been read, the accumulated text is exactly the separator-join of the contents. |
| Tessy.AssembledText | tessy/_tessy.py:532-546 | For n files the text has length equal to the total content length plus n-1 separators, with no trailing separator. One file gives its content alone. |
| Tessy.Session.constructor | tessy/_tessy.py:198-217 | A fresh session has the default configuration, no tracked files and no warnings. |
| Tessy.Session.SetCommand | tessy/_tessy.py:239-251 | The new state is the `set_command` step applied to the old one. Its warnings are appended and the tracked files are untouched. |
| Tessy.Session.SetDataDir | tessy/_tessy.py:258-265 | An existing directory is stored and, if asked, exported as `TESSDATA_PREFIX`. Any other directory only warns. |
| Tessy.Session.SetContentSep | tessy/_tessy.py:272-276 | A non-empty separator is stored. An empty one only warns. |
| Tessy.Session.ApplyKeyword | tessy/_tessy.py:284-292 | One keyword goes to the first setter whose name it contains, checked in the order `command`, `data_dir`, `content_sep`. The new configuration and warnings are that setter's. A keyword that matches none changes nothing. |
| Tessy.Session.Configure | tessy/_tessy.py:279-300 | Applies each keyword in order to its setter. It returns true exactly when keywords were given and all of them are valid. It appends the setters' warnings and the invalid-argument warning. |
| Tessy.Session.ImageToFile | tessy/_tessy.py:316-512 | The result, the tracked files appended and the warnings appended are those of the `image_to_file` specification. The configuration is unchanged. |
| Tessy.Session.WarnPrelude | tessy/_tessy.py:322-368 | Emits the missing-data-directory warning and the unsupported-format warning, in that order, and under their conditions. |
| Tessy.Session.CheckImage | tessy/_tessy.py:370-405 | Warns about a failed copy, an unrecognised image library or a failed import. It reports whether the call may go on. |
| Tessy.Session.RunEngine | tessy/_tessy.py:411-512 | Tracks the input file, builds and runs the command, and then collects the outputs or reports the engine's errors, as the engine-stage specification says. |
| Tessy.Session.WarnConfig | tessy/_tessy.py:439-446 | Warns exactly when a non-empty `config` cannot be tokenised. |
| Tessy.Session.Finish | tessy/_tessy.py:485-512 | After status 0, returns and tracks the existing outputs. Otherwise it warns with the parsed engine errors when there are any. |
| Tessy.Session.ImageToString | tessy/_tessy.py:515-548 | The result, tracked files and warnings are those of the `image_to_string` specification. A PDF request returns None with a warning before any work is done. |
| Tessy.Session.ConvertToString | tessy/_tessy.py:528-548 | Runs `image_to_file`, then turns its answer into a string with the separator configured at the time of the call. |
| Tessy.Session.TextOf | tessy/_tessy.py:532-548 | False or an empty tuple gives None. A tuple of files gives their stripped contents joined by the separator. |
| Tessy.Session.ReadAll | tessy/_tessy.py:538-546 | The accumulating loop builds exactly the separator-join of the stripped contents, with `""` for an unreadable or empty file. It warns once per unreadable file. |
| Tessy.Session.ReadStep | tessy/_tessy.py:538-546 | One loop pass appends the file's stripped content, which is empty for an unreadable or empty file, then the separator unless this is the last file. It warns once if the file cannot be read. |
| Tessy.Session.ReadFile | tessy/_tessy.py:941-958 | A readable file gives its content stripped. An unreadable one gives the empty text and adds one read-failure warning. |
| Tessy.Session.ClearTemp | tessy/_tessy.py:635-652 | With `remove_all`, walks the globbed paths and keeps the tracked list. Otherwise it walks the tracked paths and empties the list. The outcome is the `Sweep` of the walked list over the files on disk. The configuration and warnings are unchanged. |
| Tessy.SweepMeaning | tessy/_tessy.py:635-652 | After walking a list of paths, a file is left exactly when it existed and is not listed. A path is removed exactly when it existed and is listed, and it is removed only once even if it is listed twice. For a list without repeats, the removed paths are the existing ones, in list order. |
| MakeDoc.DropPunctuation | make-doc.py:86 | Removes every character of `[.()'=*]` and keeps the others in order. A string without them is unchanged. |
| MakeDoc.DropPunctuationAppend | make-doc.py:86 | Deleting works piece by piece: what is left of a concatenation is what is left of each part, in order. With the one-character case of `DropPunctuation`, the result is exactly the kept characters, in their order. |
| MakeDoc.Hyphenate | make-doc.py:87 | Replaces every comma and space by one hyphen, one for one. Other characters are unchanged. |
| MakeDoc.StrToMdLinkClean | make-doc.py:85-90 | The anchor contains none of `.()'=*`, no comma, no space, no backslash and no upper-case letter. |
| MakeDoc.CollapseHyphens | make-doc.py:88 | Replacing `--` by `-` removes every double hyphen from a text without triple hyphens. The result starts with a hyphen exactly when the text does. |
| MakeDoc.StrToMdLinkSingleHyphens | make-doc.py:85-90 | When the cleaned name has no run of three hyphens, the anchor has no two hyphens in a row. |
| MakeDoc.StrToMdLinkFixpoint | make-doc.py:85-90 | A clean anchor without double hyphens is its own anchor. |
| MakeDoc.StrToMdLinkIdempotent | make-doc.py:85-90 | Under the same condition, applying `str_to_mdlink` to its own result changes nothing. |
| MakeDoc.ParentComponentMeaning | make-doc.py:184-185 | The displayed parent is the last dot-separated component. It contains no dot, and the full parent name is either that component or ends in `.` followed by it. A name without dots is shown whole. |
| MakeDoc.BuildMemberDocLayout | make-doc.py:183-234 | A sub member has no table-of-contents entry and gets a `###` heading. Any other member's entry is exactly `- [{parent}.**{name}**](#{link}) ` followed by its suffix. The suffix is `*(class)*` for a class, `*(alias)*` for an alias that is not a class, and empty otherwise. The section is exactly the heading, the displayed name, the cleaned signature, a newline, the doc text and a newline. A class is shown as `class {name}`, any other member as `{parent}.{name}`. |
| MakeDoc.MemberDetails | make-doc.py:201-222 | Enums show no signature. A signature without `self, ` and `, /)` is shown unchanged. String and enum values show as `> = "value"`, numbers unquoted. |
| MakeDoc.CleanSignSelf | make-doc.py:202-204 | A method signature `(self, p` is shown as `(p` when `p` holds neither `self, ` nor `, /)`. |
| MakeDoc.CleanSignBoth | make-doc.py:202-204 | Both cleanings apply together. A method signature `(self, p, /)` is shown as `(p)` when `self, ` occurs only at the front and `, /)` only at the end. |
| MakeDoc.CleanSignPositional | make-doc.py:202-204 | A signature `p, /)` whose only `, /)` is the closing one, and which holds no `self, `, is shown as `p)`. |
| MakeDoc.DocLineEndings | make-doc.py:223-224 | A docstring's line endings are all rewritten as `\n`. |

## Left out

Subprocess calls:
- `_proc_exec_wait`, `run` and `runnable` spawn a process. The engine is a parameter that maps the command line to its status, its error output and the files present afterwards.
- `shlex.split` is a foreign tokenizer. Its outcome on `config` is a parameter.

Filesystem and environment:
- Copying, reading, removing and globbing files are parameters. So are the existence tests, the temporary directory and the temporary names, which are nondeterministic.
- `check_runnable` and `write_cache` of `set_command` are not modelled. They run the engine and write a cache file.
- `locate`, `locate_data`, `init`, `tesseract_version` and the registry and cache-file lookups are not modelled. They depend on the operating system and on live process output.
- The image adapters (`_get_image_lib_name_from_object`, `_import_image_module`, `_prepare_image`) are reduced to their outcome: recognised, imported, and whether the input file exists afterwards. Exceptions raised inside `_prepare_image` are not modelled.

Warnings:
- Warnings are a log of structured values. Their message texts are not modelled.

Not part of this model:
- `DataOutput`, `image_to_data` and the `*_to_dict` parsers re-exported by `tessy/__init__.py`.
- A `--psm 0` option: the command builder in `tessy/_tessy.py` never adds one, so the model has none.
- In `make-doc.py`: `get_members_info`, `get_member_info`, `format_doc` and `build`. They use reflection, regular-expression search, a module import and a file write.

Weaker contracts:
- Text.Lower: lower-cases ASCII letters only. Python's `str.lower` also maps other Unicode letters.
- Command.FormatListMeaning: every list or tuple element is taken to be a str. A non-str element makes Python's `.strip()` raise, and that case is not modelled.
- Tessy.Session.Configure: keyword values are taken as str. `set_data_dir` is always called with `update_env` true, as `configure` does.
- Tessy.Session.ClearTemp: a failed removal only warns in `_remove_file` and is not modelled.
- Tessy.Session.ClearTemp: takes `remove_all` as a parameter. The code's default is `True`, so the tracked list is only cleared when `False` is passed explicitly.
- MakeDoc.StrToMdLinkIdempotent: holds only when the cleaned name has no run of three hyphens. `replace("--", "-")` runs once, so `a---b` gives `a--b`, which the next application shortens again.
