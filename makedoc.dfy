/**
 * The documentation script: the Markdown anchor `str_to_mdlink` builds from a
 * member's qualified name, and the table-of-contents line and section heading
 * `build_member_doc` renders for one member.
 */
module MakeDoc {
  import opened Text

  // ---------------------------------------------------------------------------
  // str_to_mdlink
  // ---------------------------------------------------------------------------

  /** The characters `re.sub("[.()'=*]", "", s)` deletes. */
  predicate Dropped(c: char) {
    c == '.' || c == '(' || c == ')' || c == '\'' || c == '=' || c == '*'
  }

  /** Deletes every character of the class `[.()'=*]`, keeping the others in order. */
  function DropPunctuation(s: string): (r: string)
    ensures |r| <= |s|
    ensures forall i :: 0 <= i < |r| ==> !Dropped(r[i]) && r[i] in s
    ensures (forall i :: 0 <= i < |s| ==> !Dropped(s[i])) ==> r == s
    ensures |s| == 1 ==> (r == [] <==> Dropped(s[0])) && (!Dropped(s[0]) ==> r == s)
  {
    if s == [] then []
    else (if Dropped(s[0]) then [] else [s[0]]) + DropPunctuation(s[1..])
  }

  /**
   * Deleting characters works piece by piece: what is left of a concatenation is what is
   * left of each part, in order. With the one-character case above, this pins down the
   * result as exactly the kept characters of `s`, in their order.
   */
  lemma {:induction false} DropPunctuationAppend(a: string, b: string)
    ensures DropPunctuation(a + b) == DropPunctuation(a) + DropPunctuation(b)
  {
    if a != [] {
      var head := if Dropped(a[0]) then [] else [a[0]];
      assert (a + b)[0] == a[0];
      assert (a + b)[1..] == a[1..] + b;
      DropPunctuationAppend(a[1..], b);
      assert DropPunctuation(a + b) == head + (DropPunctuation(a[1..]) + DropPunctuation(b));
    } else {
      assert a + b == b;
    }
  }

  /** `re.sub("[, ]", "-", s)`: each comma and each space becomes a hyphen, one for one. */
  function Hyphenate(s: string): (r: string)
    ensures |r| == |s|
    ensures forall i :: 0 <= i < |r| ==> r[i] != ',' && r[i] != ' '
    ensures forall i :: 0 <= i < |s| && (s[i] == ',' || s[i] == ' ') ==> r[i] == '-'
    ensures forall i :: 0 <= i < |s| && s[i] != ',' && s[i] != ' ' ==> r[i] == s[i]
  {
    seq(|s|, i requires 0 <= i < |s| => if s[i] == ',' || s[i] == ' ' then '-' else s[i])
  }

  /** The text before the final collapse and lower-casing. */
  function Hyphenated(s: string): string {
    Replace(Hyphenate(DropPunctuation(s)), "\\", "")
  }

  /** `str_to_mdlink(s)` with ASCII lower-casing. */
  function StrToMdLink(s: string): string {
    Lower(Replace(Hyphenated(s), "--", "-"))
  }

  predicate NoDoubleHyphen(s: string) {
    forall i :: 0 <= i < |s| - 1 ==> !(s[i] == '-' && s[i + 1] == '-')
  }

  predicate NoTripleHyphen(s: string) {
    forall i :: 0 <= i < |s| - 2 ==> !(s[i] == '-' && s[i + 1] == '-' && s[i + 2] == '-')
  }

  /** An anchor as `str_to_mdlink` means it: none of the deleted or replaced characters, lower case. */
  predicate Clean(s: string) {
    forall i :: 0 <= i < |s| ==> !Dropped(s[i]) && s[i] != ',' && s[i] != ' ' && s[i] != '\\' && !IsUpper(s[i])
  }

  /**
   * The anchor holds none of `.()'=*`, no comma, no space, no backslash and no
   * upper-case letter.
   */
  lemma StrToMdLinkClean(s: string)
    ensures Clean(StrToMdLink(s))
  {
    var d := DropPunctuation(s);
    var h := Hyphenate(d);
    var b := Replace(h, "\\", "");
    ReplaceChars(h, "\\", "");
    ReplaceCharRemoves(h, '\\', "");
    var c := Replace(b, "--", "-");
    ReplaceChars(b, "--", "-");
    var r := Lower(c);
    forall i | 0 <= i < |r| ensures !Dropped(r[i]) && r[i] != ',' && r[i] != ' ' && r[i] != '\\' {
      assert c[i] in c;
      if c[i] in b {
        var j :| 0 <= j < |b| && b[j] == c[i];
        assert b[j] in h;
        var k :| 0 <= k < |h| && h[k] == b[j];
        assert h[k] == d[k] || h[k] == '-';
      }
    }
  }

  /**
   * Each non-overlapping "--" becomes "-": when the text has no run of three
   * hyphens the result has no two hyphens in a row, and it starts with a hyphen
   * exactly when the text does.
   */
  lemma {:induction false} CollapseHyphens(t: string)
    requires NoTripleHyphen(t)
    ensures var r := Replace(t, "--", "-");
      && NoDoubleHyphen(r)
      && (r != [] && r[0] == '-' <==> t != [] && t[0] == '-')
    decreases |t|
  {
    var r := Replace(t, "--", "-");
    if StartsWith(t, "--") {
      var x := Replace(t[2..], "--", "-");
      assert NoTripleHyphen(t[2..]) by {
        forall i | 0 <= i < |t[2..]| - 2 ensures !(t[2..][i] == '-' && t[2..][i + 1] == '-' && t[2..][i + 2] == '-') {
          assert t[2..][i] == t[i + 2];
        }
      }
      CollapseHyphens(t[2..]);
      assert t[0] == '-' && t[1] == '-';
      assert t[2..] != [] ==> t[2..][0] != '-' by {
        if |t| > 2 { assert !(t[0] == '-' && t[1] == '-' && t[2] == '-'); }
      }
      assert r == "-" + x;
      forall i | 0 <= i < |r| - 1 ensures !(r[i] == '-' && r[i + 1] == '-') {
        if i > 0 { assert r[i] == x[i - 1] && r[i + 1] == x[i]; }
      }
    } else if t != [] {
      var x := Replace(t[1..], "--", "-");
      assert NoTripleHyphen(t[1..]) by {
        forall i | 0 <= i < |t[1..]| - 2 ensures !(t[1..][i] == '-' && t[1..][i + 1] == '-' && t[1..][i + 2] == '-') {
          assert t[1..][i] == t[i + 1];
        }
      }
      CollapseHyphens(t[1..]);
      assert t[0] == '-' && |t| > 1 ==> t[1] != '-';
      assert r == [t[0]] + x;
      forall i | 0 <= i < |r| - 1 ensures !(r[i] == '-' && r[i + 1] == '-') {
        if i > 0 { assert r[i] == x[i - 1] && r[i + 1] == x[i]; }
      }
    }
  }

  /** When the cleaned text has no run of three hyphens, the anchor has no two hyphens in a row. */
  lemma StrToMdLinkSingleHyphens(s: string)
    requires NoTripleHyphen(Hyphenated(s))
    ensures NoDoubleHyphen(StrToMdLink(s))
  {
    CollapseHyphens(Hyphenated(s));
  }

  lemma {:induction false} NoDoubleAbsent(s: string)
    requires NoDoubleHyphen(s)
    ensures !HasSubstring(s, "--")
    decreases |s|
  {
    if s != [] {
      assert !StartsWith(s, "--") by {
        if |s| >= 2 { assert !(s[0] == '-' && s[1] == '-'); assert s[..2][0] == s[0] && s[..2][1] == s[1]; }
      }
      assert NoDoubleHyphen(s[1..]) by {
        forall i | 0 <= i < |s[1..]| - 1 ensures !(s[1..][i] == '-' && s[1..][i + 1] == '-') {
          assert s[1..][i] == s[i + 1];
        }
      }
      NoDoubleAbsent(s[1..]);
    }
  }

  /**
   * A clean anchor without double hyphens is its own anchor, so applying
   * `str_to_mdlink` twice gives the same anchor when the first result has no
   * double hyphens.
   */
  lemma StrToMdLinkFixpoint(s: string)
    requires Clean(s) && NoDoubleHyphen(s)
    ensures StrToMdLink(s) == s
  {
    assert DropPunctuation(s) == s;
    assert Hyphenate(s) == s;
    CharAbsent(s, '\\');
    ReplaceAbsent(s, "\\", "");
    NoDoubleAbsent(s);
    ReplaceAbsent(s, "--", "-");
    assert Lower(s) == s;
  }

  lemma StrToMdLinkIdempotent(s: string)
    requires NoTripleHyphen(Hyphenated(s))
    ensures StrToMdLink(StrToMdLink(s)) == StrToMdLink(s)
  {
    StrToMdLinkClean(s);
    StrToMdLinkSingleHyphens(s);
    StrToMdLinkFixpoint(StrToMdLink(s));
  }

  // ---------------------------------------------------------------------------
  // build_member_doc
  // ---------------------------------------------------------------------------

  /** The `MemberInfo` record; `objText` is `str(mi.obj)`. */
  datatype MemberInfo = MemberInfo(
    objText: string,
    name: string,
    doc: string,
    sign: string,
    parentName: string,
    link: string,
    isClass: bool,
    isEnum: bool,
    isEnumVal: bool,
    isStr: bool,
    isNumber: bool,
    isAlias: bool)

  /** The table-of-contents entry and the documentation section of one member. */
  datatype MemberDoc = MemberDoc(toc: string, info: string)

  /** `"".join(parent_name.split(".")[-1:])`: the last dot-separated component. */
  function ParentComponent(parentName: string): string {
    var parts := Split(parentName, '.');
    parts[|parts| - 1]
  }

  /** The name shown in the heading. */
  function DisplayedName(mi: MemberInfo): string {
    if mi.isClass then "class " + mi.name else ParentComponent(mi.parentName) + "." + mi.name
  }

  /** The suffix shown in the table of contents. */
  function Suffix(mi: MemberInfo): string {
    if mi.isClass then "*(class)*" else if mi.isAlias then "*(alias)*" else ""
  }

  /** The signature without `self, ` and with `, /)` closed as `)`; none for an enum. */
  function CleanSign(mi: MemberInfo): string {
    if mi.isEnum then "" else Replace(Replace(mi.sign, "self, ", ""), ", /)", ")")
  }

  /** A string, number or enum value shows its value; any other member its docstring's lines. */
  function DocText(mi: MemberInfo): string {
    if mi.isStr || mi.isNumber || mi.isEnumVal then
      "> = " + (if mi.isStr || mi.isEnumVal then "\"" + mi.objText + "\"" else mi.objText)
    else Join("\n", SplitLines(mi.doc))
  }

  /** `build_member_doc(mi, is_sub)` */
  function BuildMemberDoc(mi: MemberInfo, isSub: bool): MemberDoc {
    var parent := ParentComponent(mi.parentName);
    var toc := if isSub then "" else "- [" + parent + ".**" + mi.name + "**](#" + mi.link + ") " + Suffix(mi);
    var heading := if isSub then "### " else "## ";
    MemberDoc(toc, heading + DisplayedName(mi) + CleanSign(mi) + "\n" + DocText(mi) + "\n")
  }

  /**
   * The displayed parent is the last dot-separated component: it holds no dot, and
   * the full parent name is either that component or ends with a dot and that component.
   */
  lemma ParentComponentMeaning(parentName: string)
    ensures '.' !in ParentComponent(parentName)
    ensures var p := ParentComponent(parentName);
      parentName == p || exists prefix :: parentName == prefix + "." + p
    ensures '.' !in parentName ==> ParentComponent(parentName) == parentName
  {
    var parts := Split(parentName, '.');
    var n := |parts|;
    if n > 1 {
      LastComponentSuffix(parentName);
    } else {
      JoinSplit(parentName, '.');
    }
    if '.' !in parentName {
      SplitWhole(parentName, '.');
    }
  }

  lemma LastComponentSuffix(parentName: string)
    requires |Split(parentName, '.')| > 1
    ensures var parts := Split(parentName, '.');
      parentName == Join(".", parts[..|parts| - 1]) + "." + parts[|parts| - 1]
  {
    var parts := Split(parentName, '.');
    var n := |parts|;
    JoinSplit(parentName, '.');
    JoinSnoc(".", parts[..n - 1], parts[n - 1]);
    assert parts[..n - 1] + [parts[n - 1]] == parts;
  }

  /**
   * A sub member has no table-of-contents entry and a level-3 heading; any other
   * member has an entry that links to its anchor and a level-2 heading. Classes show
   * as "class {name}" with the class suffix, other members as "{parent}.{name}".
   */
  lemma BuildMemberDocLayout(mi: MemberInfo, isSub: bool)
    ensures var d := BuildMemberDoc(mi, isSub);
      && (d.toc == "" <==> isSub)
      && (!isSub ==> StartsWith(d.toc, "- [" + ParentComponent(mi.parentName) + ".**" + mi.name + "**](#" + mi.link + ")"))
      && (!isSub ==> d.toc == "- [" + ParentComponent(mi.parentName) + ".**" + mi.name + "**](#" + mi.link + ") " + Suffix(mi))
      && (!mi.isClass && mi.isAlias ==> Suffix(mi) == "*(alias)*")
      && (!mi.isClass && !mi.isAlias ==> Suffix(mi) == "")
      && d.info == (if isSub then "### " else "## ") + DisplayedName(mi) + CleanSign(mi) + "\n" + DocText(mi) + "\n"
      && (isSub ==> StartsWith(d.info, "### " + DisplayedName(mi)))
      && (!isSub ==> StartsWith(d.info, "## " + DisplayedName(mi)))
      && (mi.isClass ==> DisplayedName(mi) == "class " + mi.name && Suffix(mi) == "*(class)*")
      && (!mi.isClass ==> DisplayedName(mi) == ParentComponent(mi.parentName) + "." + mi.name)
      && d.info[|d.info| - 1] == '\n'
  {
    var d := BuildMemberDoc(mi, isSub);
    var parent := ParentComponent(mi.parentName);
    var head := "- [" + parent + ".**" + mi.name + "**](#" + mi.link + ")";
    if !isSub {
      assert d.toc == head + " " + Suffix(mi);
      assert d.toc[..|head|] == head;
    }
    var h := (if isSub then "### " else "## ") + DisplayedName(mi);
    assert d.info == h + (CleanSign(mi) + "\n" + DocText(mi) + "\n");
    assert d.info[..|h|] == h;
  }

  /**
   * Enums show no signature; a signature without `self, ` and `, /)` is shown as it is;
   * a string or enum value is quoted after "> = ", a number is not.
   */
  lemma MemberDetails(mi: MemberInfo)
    ensures mi.isEnum ==> CleanSign(mi) == ""
    ensures !mi.isEnum && !HasSubstring(mi.sign, "self, ") && !HasSubstring(mi.sign, ", /)") ==> CleanSign(mi) == mi.sign
    ensures mi.isStr || mi.isEnumVal ==> DocText(mi) == "> = \"" + mi.objText + "\""
    ensures mi.isNumber && !mi.isStr && !mi.isEnumVal ==> DocText(mi) == "> = " + mi.objText
  {
    if !mi.isEnum && !HasSubstring(mi.sign, "self, ") && !HasSubstring(mi.sign, ", /)") {
      ReplaceAbsent(mi.sign, "self, ", "");
      ReplaceAbsent(mi.sign, ", /)", ")");
    }
  }

  /** A method's signature loses its leading `self, `: `(self, p` is shown as `(p`. */
  lemma CleanSignSelf(mi: MemberInfo, p: string)
    requires !mi.isEnum && mi.sign == "(self, " + p
    requires !HasSubstring(p, "self, ") && !HasSubstring(p, ", /)")
    ensures CleanSign(mi) == "(" + p
  {
    SelfRemoved(p);
    MarkerAbsent(p);
  }

  lemma SelfRemoved(p: string)
    requires !HasSubstring(p, "self, ")
    ensures Replace("(self, " + p, "self, ", "") == "(" + p
  {
    ReplaceLeadOccurrence('(', "self, ", p, "");
  }

  lemma MarkerAbsent(p: string)
    requires !HasSubstring(p, ", /)")
    ensures Replace("(" + p, ", /)", ")") == "(" + p
  {
    ReplaceAfterLead('(', ", /)", p, ")");
    ReplaceAbsent(p, ", /)", ")");
  }

  /**
   * A positional-only marker at the end is dropped: a signature `p, /)` whose only `, /)`
   * is that closing one, and which has no `self, `, is shown as `p)`.
   */
  lemma CleanSignPositional(mi: MemberInfo, p: string)
    requires !mi.isEnum && mi.sign == p + ", /)"
    requires !HasSubstring(mi.sign, "self, ")
    requires forall k :: 0 <= k < |p| ==> !StartsWith(mi.sign[k..], ", /)")
    ensures CleanSign(mi) == p + ")"
  {
    assert Replace(mi.sign, "self, ", "") == mi.sign by {
      ReplaceAbsent(mi.sign, "self, ", "");
    }
    MarkerDropped(p);
  }

  /**
   * Both cleanings apply together: a method signature `(self, p, /)` is shown as `(p)`
   * when `self, ` occurs only at the front and `, /)` only at the end.
   */
  lemma CleanSignBoth(mi: MemberInfo, p: string)
    requires !mi.isEnum && mi.sign == "(self, " + p + ", /)"
    requires !HasSubstring(p + ", /)", "self, ")
    requires forall k :: 0 <= k < |p| ==> !StartsWith((p + ", /)")[k..], ", /)")
    ensures CleanSign(mi) == "(" + p + ")"
  {
    SelfRemovedBefore(p);
    MarkerAtEnd(p);
  }

  lemma SelfRemovedBefore(p: string)
    requires !HasSubstring(p + ", /)", "self, ")
    ensures Replace("(self, " + p + ", /)", "self, ", "") == "(" + p + ", /)"
  {
    assert "(self, " + p + ", /)" == ['('] + "self, " + (p + ", /)");
    ReplaceLeadOccurrence('(', "self, ", p + ", /)", "");
    assert ['('] + "" + (p + ", /)") == "(" + p + ", /)";
  }

  lemma MarkerAtEnd(p: string)
    requires forall k :: 0 <= k < |p| ==> !StartsWith((p + ", /)")[k..], ", /)")
    ensures Replace("(" + p + ", /)", ", /)", ")") == "(" + p + ")"
  {
    ReplaceLeadThenEnd('(', p, ", /)", ")");
  }

  lemma MarkerDropped(p: string)
    requires forall k :: 0 <= k < |p| ==> !StartsWith((p + ", /)")[k..], ", /)")
    ensures Replace(p + ", /)", ", /)", ")") == p + ")"
  {
    ReplaceAtEnd(p, ", /)", ")");
  }

  /** "\n" is the only line break the text holds. */
  predicate OnlyNewlines(s: string) {
    forall k :: 0 <= k < |s| && IsLineBreak(s[k]) ==> s[k] == '\n'
  }

  /** Joining lines that hold no line break leaves "\n" as the only line break. */
  lemma {:induction false} JoinLinesBreaks(lines: seq<string>)
    requires forall i, j :: 0 <= i < |lines| && 0 <= j < |lines[i]| ==> !IsLineBreak(lines[i][j])
    ensures OnlyNewlines(Join("\n", lines))
  {
    if |lines| == 1 {
      var r := Join("\n", lines);
      assert r == lines[0];
      forall k | 0 <= k < |r| ensures !IsLineBreak(r[k]) {
        assert !IsLineBreak(lines[0][k]);
      }
    } else if |lines| > 1 {
      JoinLinesBreaks(lines[1..]);
      var head := lines[0] + "\n";
      var rest := Join("\n", lines[1..]);
      var r := Join("\n", lines);
      assert r == head + rest;
      forall k | 0 <= k < |r| && IsLineBreak(r[k]) ensures r[k] == '\n' {
        if k == |lines[0]| {
          assert r[k] == head[k];
        } else if k > |lines[0]| {
          assert r[k] == rest[k - |head|];
        }
      }
    }
  }

  /** A docstring is shown with every line ending written as "\n". */
  lemma DocLineEndings(mi: MemberInfo)
    requires !(mi.isStr || mi.isNumber || mi.isEnumVal)
    ensures OnlyNewlines(DocText(mi))
  {
    JoinLinesBreaks(SplitLines(mi.doc));
  }
}
